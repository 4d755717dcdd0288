/** Strings as byte sequences: the order of `str` and splitting at a separator. */
module Text {
  /** `a < b` on `str`: byte-wise lexicographic order. */
  predicate Less(a: string, b: string) {
    if b == "" then false
    else if a == "" then true
    else a[0] < b[0] || (a[0] == b[0] && Less(a[1..], b[1..]))
  }

  lemma {:induction false} LessIsTotal(a: string, b: string)
    ensures !(Less(a, b) && Less(b, a))
    ensures a == b || Less(a, b) || Less(b, a)
    ensures a == b ==> !Less(a, b)
  {
    if a != "" && b != "" {
      LessIsTotal(a[1..], b[1..]);
      if a[0] == b[0] && a[1..] == b[1..] {
        assert a == [a[0]] + a[1..] == [b[0]] + b[1..] == b;
      }
    }
  }

  /** `a` ends, or has a smaller byte, where it first differs from `b`. */
  ghost predicate FirstDiffers(a: string, b: string, k: nat) {
    k <= |a| && k < |b| && a[..k] == b[..k] && (k == |a| || a[k] < b[k])
  }

  lemma {:induction false} LessExactly(a: string, b: string)
    ensures Less(a, b) <==> exists k: nat :: FirstDiffers(a, b, k)
  {
    if a == "" || b == "" {
      if b != "" { assert FirstDiffers(a, b, 0); }
    } else {
      LessExactly(a[1..], b[1..]);
      if a[0] < b[0] { assert FirstDiffers(a, b, 0); }
      if a[0] == b[0] && Less(a[1..], b[1..]) {
        var k: nat :| FirstDiffers(a[1..], b[1..], k);
        assert a[..k + 1] == [a[0]] + a[1..][..k] && b[..k + 1] == [b[0]] + b[1..][..k];
        assert FirstDiffers(a, b, k + 1);
      }
      if k: nat :| FirstDiffers(a, b, k) {
        if k > 0 {
          assert a[..k][0] == b[..k][0];
          assert a[..k][1..] == a[1..][..k - 1] && b[..k][1..] == b[1..][..k - 1];
          assert FirstDiffers(a[1..], b[1..], k - 1);
        }
      }
    }
  }

  predicate Plain(s: string) {
    ':' !in s
  }

  /** The first colon splits a string in only one way. */
  lemma ColonSplit(a: string, b: string, c: string, d: string)
    requires Plain(a) && Plain(c)
    requires a + ":" + b == c + ":" + d
    ensures a == c && b == d
  {
    var s, t := a + ":" + b, c + ":" + d;
    assert s[|a|] == ':' && t[|c|] == ':';
    assert a == s[..|a|] && c == t[..|c|];
    assert b == s[|a| + 1..] && d == t[|c| + 1..];
  }

  /** So does the last one. */
  lemma LastColonSplit(a: string, b: string, c: string, d: string)
    requires Plain(b) && Plain(d)
    requires a + ":" + b == c + ":" + d
    ensures a == c && b == d
  {
    var s, t := a + ":" + b, c + ":" + d;
    assert s[|a|] == ':' && t[|c|] == ':';
    assert b == s[|a| + 1..] && d == t[|c| + 1..];
    assert forall i :: |a| < i < |s| ==> s[i] in b;
    assert forall i :: |c| < i < |t| ==> t[i] in d;
    assert a == s[..|a|] && c == t[..|c|];
  }

  lemma SamePrefix(p: string, a: string, b: string)
    requires p + a == p + b
    ensures a == b
  {
    assert a == (p + a)[|p|..] && b == (p + b)[|p|..];
  }
}
