/** String helpers shared by the models of the two OCR scripts: concatenating
    page sections in order, and rendering page numbers in decimal. */
module Text {

  /** The concatenation of `parts`, in order (Python's `"".join(parts)`, or a
      string built up with `+=` one part at a time). */
  function Flatten(parts: seq<string>): (r: string)
    ensures |parts| == 0 ==> r == ""
  {
    if |parts| == 0 then "" else Flatten(parts[..|parts| - 1]) + parts[|parts| - 1]
  }

  /** The parts with the separator put in front of every part but the
      first. */
  function Separated(sep: string, parts: seq<string>): (r: seq<string>)
    ensures |r| == |parts|
  {
    seq(|parts|, i requires 0 <= i < |parts| => if i == 0 then parts[0] else sep + parts[i])
  }

  /** Python's `sep.join(parts)`: the parts in order, with `sep` between
      each two neighbours. */
  function Join(sep: string, parts: seq<string>): (r: string)
    ensures |parts| == 0 ==> r == ""
  {
    Flatten(Separated(sep, parts))
  }

  /** Joining one more part appends the separator and that part, and a
      single part joins to itself: `sep.join` read one part at a time. */
  lemma JoinStep(sep: string, parts: seq<string>, last: string)
    ensures Join(sep, [last]) == last
    ensures |parts| > 0 ==> Join(sep, parts + [last]) == Join(sep, parts) + sep + last
  {
    assert Separated(sep, [last])[..0] == [];
    if |parts| > 0 {
      var longer := Separated(sep, parts + [last]);
      assert longer[..|parts|] == Separated(sep, parts);
      assert longer[|parts|] == sep + last;
    }
  }

  /** In `sep.join(parts)`, part i comes right after the join of the parts
      before it and, unless it is the first, one separator: every part
      appears whole, in order, with exactly one separator between
      neighbours. */
  lemma JoinPartAt(sep: string, parts: seq<string>, i: nat)
    requires i < |parts|
    ensures Join(sep, parts[..i]) + (if i == 0 then "" else sep) + parts[i] <= Join(sep, parts)
  {
    assert parts[..i] + [parts[i]] == parts[..i + 1];
    JoinStep(sep, parts[..i], parts[i]);
    JoinPrefix(sep, parts, i + 1);
    FlattenPrefix(Separated(sep, parts), i + 1);
  }

  /** Joining the first i parts is flattening the first i separated parts. */
  lemma JoinPrefix(sep: string, parts: seq<string>, i: nat)
    requires i <= |parts|
    ensures Join(sep, parts[..i]) == Flatten(Separated(sep, parts)[..i])
  {
    assert Separated(sep, parts)[..i] == Separated(sep, parts[..i]);
  }

  /** Appending one more part to a prefix extends the flattened string by that part. */
  lemma FlattenStep(parts: seq<string>, i: nat)
    requires i < |parts|
    ensures Flatten(parts[..i + 1]) == Flatten(parts[..i]) + parts[i]
  {
    assert parts[..i + 1][..i] == parts[..i];
  }

  /** Flattening a prefix of the parts yields a prefix of the flattened whole. */
  lemma {:induction false} FlattenPrefix(parts: seq<string>, i: nat)
    requires i <= |parts|
    ensures Flatten(parts[..i]) <= Flatten(parts)
  {
    if i < |parts| {
      var n := |parts|;
      FlattenPrefix(parts[..n - 1], i);
      assert parts[..n - 1][..i] == parts[..i];
      assert parts[..n] == parts;
    } else {
      assert parts[..i] == parts;
    }
  }

  /** Part `i` sits in the flattened string right after parts 0 .. i-1: the
      parts appear in order, each exactly once, with nothing between them. */
  lemma PartAt(parts: seq<string>, i: nat)
    requires i < |parts|
    ensures var start := |Flatten(parts[..i])|;
            start + |parts[i]| <= |Flatten(parts)| &&
            Flatten(parts)[start .. start + |parts[i]|] == parts[i]
  {
    FlattenStep(parts, i);
    FlattenPrefix(parts, i + 1);
    var whole := Flatten(parts);
    var upto := Flatten(parts[..i + 1]);
    var start := |Flatten(parts[..i])|;
    assert whole[..|upto|] == upto;
    assert upto[start..] == parts[i];
  }

  /** A prefix of a part found at `start` is found at `start` too. */
  lemma PrefixAt(whole: string, start: nat, part: string, pre: string)
    requires start + |part| <= |whole| && whole[start .. start + |part|] == part
    requires pre <= part
    ensures start + |pre| <= |whole| && whole[start .. start + |pre|] == pre
  {
    forall k | 0 <= k < |pre|
      ensures whole[start + k] == pre[k]
    {
      assert whole[start .. start + |part|][k] == part[k];
    }
  }

  predicate IsDigit(c: char) {
    '0' <= c <= '9'
  }

  function DigitChar(d: nat): (c: char)
    requires d < 10
    ensures IsDigit(c) && c as int - '0' as int == d
  {
    "0123456789"[d]
  }

  /** Python's `str(n)` for a non-negative integer: its decimal digits, most
      significant first, without leading zeros. */
  function NatToString(n: nat): (r: string)
    ensures |r| >= 1
    ensures forall k :: 0 <= k < |r| ==> IsDigit(r[k])
    ensures r[0] == '0' ==> n == 0
  {
    if n < 10 then [DigitChar(n)] else NatToString(n / 10) + [DigitChar(n % 10)]
  }

  /** The number a string of decimal digits denotes. */
  function DigitsValue(s: string): nat
    requires forall k :: 0 <= k < |s| ==> IsDigit(s[k])
  {
    if |s| == 0 then 0
    else
      assert IsDigit(s[|s| - 1]);
      DigitsValue(s[..|s| - 1]) * 10 + (s[|s| - 1] as int - '0' as int)
  }

  /** Reading the rendered digits back gives the number: decimal rendering
      loses nothing. */
  lemma {:induction false} NatToStringRoundTrip(n: nat)
    ensures DigitsValue(NatToString(n)) == n
  {
    if n >= 10 {
      NatToStringRoundTrip(n / 10);
      var r := NatToString(n);
      assert r[..|r| - 1] == NatToString(n / 10);
    }
  }

  /** Distinct numbers render differently, so distinct pages get distinct headers. */
  lemma NatToStringInjective(a: nat, b: nat)
    requires NatToString(a) == NatToString(b)
    ensures a == b
  {
    NatToStringRoundTrip(a);
    NatToStringRoundTrip(b);
  }
}
