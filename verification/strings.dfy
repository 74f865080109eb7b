/** Optional values and the small amount of text handling the game needs:
    substring search (the only regular-expression use in the simulation core)
    and Python-style rendering of integers. */
module Options {

  /** A value that may be absent, the model of Python's `None`. */
  datatype Option<+T> = None | Some(value: T)
}

module Strings {

  /** `p` is a prefix of `s`. */
  predicate HasPrefix(p: string, s: string)
  {
    |p| <= |s| && s[..|p|] == p
  }

  /** `p` occurs in `s` starting at offset `i`. */
  predicate OccursAt(p: string, s: string, i: int)
  {
    0 <= i && i + |p| <= |s| && s[i..i + |p|] == p
  }

  /** `p` occurs somewhere in `s`: the search performed by `re.search` for a
      literal pattern, and by `str.find(p) != -1`. */
  predicate Occurs(p: string, s: string)
    decreases |s|
  {
    HasPrefix(p, s) || (|s| > 0 && Occurs(p, s[1..]))
  }

  /** The recursive search agrees with the offset-based definition. */
  lemma {:induction false} OccursIffSomeOffset(p: string, s: string)
    ensures Occurs(p, s) <==> exists i :: OccursAt(p, s, i)
    decreases |s|
  {
    if HasPrefix(p, s) {
      assert OccursAt(p, s, 0);
    } else if |s| > 0 {
      forall i | OccursAt(p, s, i) && i > 0
        ensures OccursAt(p, s[1..], i - 1)
      {
        assert s[1..][i - 1..i - 1 + |p|] == s[i..i + |p|];
      }
      OccursIffSomeOffset(p, s[1..]);
      if Occurs(p, s[1..]) {
        var i :| OccursAt(p, s[1..], i);
        assert s[1..][i..i + |p|] == s[i + 1..i + 1 + |p|];
        assert OccursAt(p, s, i + 1);
      }
    }
  }

  /** A string occurs in any string that starts with it. */
  lemma PrefixOccurs(p: string, s: string)
    requires HasPrefix(p, s)
    ensures Occurs(p, s)
  {
  }

  /** Occurrence is preserved by appending text on the right. */
  lemma {:induction false} OccursInLonger(p: string, s: string, t: string)
    requires Occurs(p, s)
    ensures Occurs(p, s + t)
    decreases |s|
  {
    if HasPrefix(p, s) {
      assert (s + t)[..|p|] == s[..|p|];
    } else {
      assert (s + t)[1..] == s[1..] + t;
      OccursInLonger(p, s[1..], t);
    }
  }

  /** A string never occurs in a shorter one. */
  lemma {:induction false} LongerNeverOccurs(p: string, s: string)
    requires |p| > |s|
    ensures !Occurs(p, s)
    decreases |s|
  {
    if |s| > 0 {
      LongerNeverOccurs(p, s[1..]);
    }
  }

  /** A non-empty string whose first character is absent from `s` does not
      occur in `s`. */
  lemma {:induction false} FirstCharAbsent(p: string, s: string)
    requires |p| > 0
    requires forall i :: 0 <= i < |s| ==> s[i] != p[0]
    ensures !Occurs(p, s)
    decreases |s|
  {
    if |s| > 0 {
      assert |p| <= |s| ==> s[..|p|][0] == s[0];
      FirstCharAbsent(p, s[1..]);
    }
  }

  /** Decimal digit character for `d`. */
  function DigitChar(d: int): char
    requires 0 <= d < 10
  {
    "0123456789"[d]
  }

  /** Decimal rendering of a natural number, as Python's `str`/`repr`. */
  function NatToString(n: nat): (r: string)
    ensures |r| >= 1
    ensures forall k :: 0 <= k < |r| ==> '0' <= r[k] <= '9'
    decreases n
  {
    if n < 10 then [DigitChar(n)] else NatToString(n / 10) + [DigitChar(n % 10)]
  }

  /** Decimal rendering of an integer, with a leading `-` when negative. */
  function IntToString(i: int): (r: string)
    ensures |r| >= 1
  {
    if i < 0 then "-" + NatToString(-i) else NatToString(i)
  }
}
