/**
  The two string operations the column tests use: Python's substring test
  `sub in s`, and `str.lower()` restricted to ASCII letters.
 */
module Text {

  /** `sub` occurs in `s` as a contiguous block (Python's `sub in s`). */
  predicate Contains(s: string, sub: string)
    decreases |s|
  {
    sub <= s || (s != [] && Contains(s[1..], sub))
  }

  /** `sub` occurs in `s` starting at index `i`. */
  predicate OccursAt(s: string, sub: string, i: int)
  {
    0 <= i && i + |sub| <= |s| && s[i..i + |sub|] == sub
  }

  /** Some keyword of the list occurs in `s` (Python's `any(k in s for k in keywords)`). */
  predicate ContainsAny(s: string, keywords: seq<string>)
  {
    exists k :: 0 <= k < |keywords| && Contains(s, keywords[k])
  }

  /** An occurrence at any position makes `Contains` true. */
  lemma {:induction false} OccursImpliesContains(s: string, sub: string, i: int)
    requires OccursAt(s, sub, i)
    ensures Contains(s, sub)
    decreases i
  {
    if i == 0 {
      assert s[..|sub|] == sub;
    } else {
      assert s[1..][i - 1..i - 1 + |sub|] == s[i..i + |sub|];
      OccursImpliesContains(s[1..], sub, i - 1);
    }
  }

  /** `Contains` is witnessed by some position. */
  lemma {:induction false} ContainsImpliesOccurs(s: string, sub: string)
    requires Contains(s, sub)
    ensures exists i :: OccursAt(s, sub, i)
    decreases |s|
  {
    if sub <= s {
      assert s[0..|sub|] == sub;
      assert OccursAt(s, sub, 0);
    } else {
      ContainsImpliesOccurs(s[1..], sub);
      var i :| OccursAt(s[1..], sub, i);
      assert s[i + 1..i + 1 + |sub|] == s[1..][i..i + |sub|];
      assert OccursAt(s, sub, i + 1);
    }
  }

  /** A keyword can only occur in a string that holds each of its characters. */
  lemma {:induction false} ContainsCharOf(s: string, sub: string, k: int)
    requires 0 <= k < |sub|
    requires Contains(s, sub)
    ensures sub[k] in s
  {
    ContainsImpliesOccurs(s, sub);
    var i :| OccursAt(s, sub, i);
    assert s[i..i + |sub|][k] == s[i + k];
  }

  /** Occurrence is transitive: whatever occurs in an occurring block occurs in the whole. */
  lemma {:induction false} ContainsTransitive(s: string, mid: string, sub: string)
    requires Contains(s, mid) && Contains(mid, sub)
    ensures Contains(s, sub)
  {
    ContainsImpliesOccurs(s, mid);
    ContainsImpliesOccurs(mid, sub);
    var i :| OccursAt(s, mid, i);
    var j :| OccursAt(mid, sub, j);
    assert s[i + j..i + j + |sub|] == sub by {
      forall k | 0 <= k < |sub| ensures s[i + j..i + j + |sub|][k] == sub[k] {
        assert s[i..i + |mid|][j + k] == mid[j + k];
        assert mid[j..j + |sub|][k] == sub[k];
      }
    }
    OccursImpliesContains(s, sub, i + j);
  }

  /** A string that contains `u + v` contains `u`. */
  lemma {:induction false} ContainsPrefixOfKeyword(s: string, u: string, v: string)
    requires Contains(s, u + v)
    ensures Contains(s, u)
  {
    assert u <= u + v;
    ContainsTransitive(s, u + v, u);
  }

  /** ASCII lowering of one character: `A`-`Z` become `a`-`z`, every other character is unchanged. */
  function LowerChar(c: char): (d: char)
    ensures 'A' <= c <= 'Z' ==> 'a' <= d <= 'z' && d as int - c as int == 32
    ensures !('A' <= c <= 'Z') ==> d == c
  {
    if 'A' <= c <= 'Z' then (c as int + 32) as char else c
  }

  /** `str.lower()` on ASCII letters; non-ASCII characters (CJK names) are left alone. */
  function AsciiLower(s: string): (r: string)
    ensures |r| == |s|
    ensures forall i :: 0 <= i < |s| ==> r[i] == LowerChar(s[i])
  {
    seq(|s|, i requires 0 <= i < |s| => LowerChar(s[i]))
  }

  /** Lowering preserves occurrences: if `sub` occurs in `s`, its lowering occurs in the lowering of `s`. */
  lemma ContainsLower(s: string, sub: string)
    requires Contains(s, sub)
    ensures Contains(AsciiLower(s), AsciiLower(sub))
  {
    ContainsImpliesOccurs(s, sub);
    var i :| OccursAt(s, sub, i);
    var ls, lsub := AsciiLower(s), AsciiLower(sub);
    assert ls[i..i + |lsub|] == lsub by {
      forall k | 0 <= k < |lsub| ensures ls[i..i + |lsub|][k] == lsub[k] {
        assert s[i..i + |sub|][k] == sub[k];
      }
    }
    OccursImpliesContains(ls, lsub, i);
  }

  /** A one-character keyword occurs exactly when its character does. */
  lemma ContainsChar(s: string, c: char)
    ensures Contains(s, [c]) <==> c in s
  {
    if Contains(s, [c]) {
      ContainsCharOf(s, [c], 0);
    }
    if c in s {
      var i :| 0 <= i < |s| && s[i] == c;
      assert s[i..i + 1] == [c];
      OccursImpliesContains(s, [c], i);
    }
  }

  /** `sub` occurs in `s` at index `i` when the case of ASCII letters in `s` is ignored. */
  predicate OccursAtIgnoringCase(s: string, sub: string, i: int)
  {
    0 <= i && i + |sub| <= |s| && forall j :: 0 <= j < |sub| ==> LowerChar(s[i + j]) == sub[j]
  }

  /** Searching the lowered string is searching the original with letter case ignored. */
  lemma ContainsLowerIgnoringCase(s: string, sub: string)
    ensures Contains(AsciiLower(s), sub) <==> exists i :: OccursAtIgnoringCase(s, sub, i)
  {
    var ls := AsciiLower(s);
    if Contains(ls, sub) {
      ContainsImpliesOccurs(ls, sub);
      var i :| OccursAt(ls, sub, i);
      forall j | 0 <= j < |sub| ensures LowerChar(s[i + j]) == sub[j] {
        assert ls[i..i + |sub|][j] == sub[j];
      }
      assert OccursAtIgnoringCase(s, sub, i);
    }
    if exists i :: OccursAtIgnoringCase(s, sub, i) {
      var i :| OccursAtIgnoringCase(s, sub, i);
      assert ls[i..i + |sub|] == sub by {
        forall j | 0 <= j < |sub| ensures ls[i..i + |sub|][j] == sub[j] {
          assert LowerChar(s[i + j]) == sub[j];
        }
      }
      OccursImpliesContains(ls, sub, i);
    }
  }
}
