/** The two string operations the reader applies to query events: lower-casing and substring search. */
module Text {

  /** One character of Python's `str.lower`, restricted to ASCII letters. */
  function LowerChar(c: char): (r: char)
    ensures 'A' <= c <= 'Z' ==> 'a' <= r <= 'z' && r as int - 'a' as int == c as int - 'A' as int
    ensures !('A' <= c <= 'Z') ==> r == c
  {
    if 'A' <= c <= 'Z' then (c as int - 'A' as int + 'a' as int) as char else c
  }

  /** `s.lower()`, character by character. */
  function Lower(s: string): (r: string)
    ensures |r| == |s|
    ensures forall i :: 0 <= i < |r| ==> !('A' <= r[i] <= 'Z')
    ensures forall i :: 0 <= i < |s| && !('A' <= s[i] <= 'Z') ==> r[i] == s[i]
    ensures forall i :: 0 <= i < |s| && 'A' <= s[i] <= 'Z' ==> r[i] as int - 'a' as int == s[i] as int - 'A' as int
  {
    seq(|s|, i requires 0 <= i < |s| => LowerChar(s[i]))
  }

  /** Lower-casing twice is lower-casing once. */
  lemma LowerIdempotent(s: string)
    ensures Lower(Lower(s)) == Lower(s)
  {
  }

  /** Python's `sub in s` for strings: `sub` occurs in `s` at some offset. */
  predicate Contains(s: string, sub: string)
    decreases |s|
  {
    |sub| <= |s| && (s[..|sub|] == sub || (|s| > 0 && Contains(s[1..], sub)))
  }

  /** An occurrence of `sub` at offset `k` makes `Contains` hold. */
  lemma {:induction false} ContainsAt(s: string, sub: string, k: nat)
    requires k + |sub| <= |s| && s[k..k + |sub|] == sub
    ensures Contains(s, sub)
    decreases k
  {
    if k > 0 {
      assert s[1..][k - 1..k - 1 + |sub|] == s[k..k + |sub|];
      ContainsAt(s[1..], sub, k - 1);
    }
  }

  /** Conversely, `Contains` yields an offset at which `sub` occurs. */
  lemma {:induction false} ContainsWitness(s: string, sub: string) returns (k: nat)
    requires Contains(s, sub)
    ensures k + |sub| <= |s| && s[k..k + |sub|] == sub
    decreases |s|
  {
    if s[..|sub|] == sub {
      k := 0;
    } else {
      var k' := ContainsWitness(s[1..], sub);
      assert s[1..][k'..k' + |sub|] == s[k' + 1..k' + 1 + |sub|];
      k := k' + 1;
    }
  }

  /** "alter" written in any mix of case at offset `k` is found by the test on the lower-cased query. */
  lemma AlterInAnyCase(s: string, k: nat)
    requires k + 5 <= |s|
    requires forall j :: 0 <= j < 5 ==> LowerChar(s[k + j]) == "alter"[j]
    ensures Contains(Lower(s), "alter")
  {
    var q := Lower(s);
    assert q[k..k + 5] == "alter" by {
      forall j | 0 <= j < 5
        ensures q[k..k + 5][j] == "alter"[j]
      {
        assert q[k + j] == LowerChar(s[k + j]);
      }
    }
    ContainsAt(q, "alter", k);
  }
}
