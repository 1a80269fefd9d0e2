/** The `m:ss` playback-time label of the visualiser (`formatTime`), an
    independent reader for it, and the per-frame guard that only refreshes
    the labels once the track's duration is known. */
module TimeFormat {
  import opened Decimal

  datatype Option<T> = None | Some(value: T)

  /** JavaScript's `x % y` on numbers: the remainder after truncating the
      quotient toward zero, so it takes the sign of `x`. */
  function JsRemainder(x: real, y: real): (r: real)
    requires y != 0.0
  {
    var q := x / y;
    var t := if q >= 0.0 then q.Floor else -((-q).Floor);
    x - y * t as real
  }

  /** The seconds field: a zero is put in front exactly when the value is
      below ten. */
  function PadSeconds(s: nat): string {
    (if s < 10 then "0" else "") + NatToString(s)
  }

  /** `formatTime` on a whole number of seconds: minutes, a colon, then the
      seconds within the minute. */
  function FormatWhole(n: nat): string {
    NatToString(n / 60) + ":" + PadSeconds(n % 60)
  }

  /** `formatTime` as written, on a non-negative playback position in seconds:
      `Math.floor(seconds / 60)` minutes and `Math.floor(seconds % 60)`
      seconds. The label depends only on the whole seconds elapsed. */
  function FormatTime(seconds: real): (r: string)
    requires seconds >= 0.0
    ensures r == FormatWhole(seconds.Floor)
  {
    var m := (seconds / 60.0).Floor;
    var s := JsRemainder(seconds, 60.0).Floor;
    FloorFields(seconds);
    NatToString(m) + ":" + PadSeconds(s)
  }

  lemma FloorUnique(y: real, k: int)
    requires k as real <= y < k as real + 1.0
    ensures y.Floor == k
  {
  }

  /** For non-negative `x`, the two floors `formatTime` takes are the
      quotient and the remainder of `floor(x)` by 60. */
  lemma FloorFields(x: real)
    requires x >= 0.0
    ensures (x / 60.0).Floor == x.Floor / 60
    ensures JsRemainder(x, 60.0).Floor == x.Floor % 60
  {
    var n := x.Floor;
    var q := n / 60;
    var r := n % 60;
    assert n == 60 * q + r && 0 <= r < 60;
    assert n as real <= x < n as real + 1.0;
    assert 60.0 * q as real <= x < 60.0 * q as real + 60.0;
    assert q as real <= x / 60.0 < q as real + 1.0;
    FloorUnique(x / 60.0, q);
    assert JsRemainder(x, 60.0) == x - 60.0 * q as real;
    assert r as real <= x - 60.0 * q as real < r as real + 1.0;
    FloorUnique(x - 60.0 * q as real, r);
  }

  /** The seconds field read back: two digits whose value is the number. */
  lemma PadSecondsFields(s: nat)
    requires s < 60
    ensures |PadSeconds(s)| == 2 && AllDigits(PadSeconds(s))
    ensures ParseNat(PadSeconds(s)) == s
    ensures PadSeconds(s)[0] == '0' <==> s < 10
  {
    var p := PadSeconds(s);
    ParseNatToString(s);
    if s < 10 {
      assert p == ['0', DigitChar(s)];
      assert p[..1] == ['0'] && ParseNat(['0'][..0]) == 0;
    } else {
      assert NatToString(s) == NatToString(s / 10) + [DigitChar(s % 10)];
      assert p[0] == DigitChar(s / 10);
    }
  }

  /** Reads an `m:ss` label: canonical minutes, one colon, two digits of
      seconds below 60. Any other string is rejected. */
  function ParseTime(t: string): (r: Option<nat>)
  {
    if |t| < 4 || t[|t| - 3] != ':' then None
    else
      var mm := t[..|t| - 3];
      var ss := t[|t| - 2..];
      if !Canonical(mm) || !AllDigits(ss) || ParseNat(ss) >= 60 then None
      else Some(60 * ParseNat(mm) + ParseNat(ss))
  }

  /** The fields of the label: the minutes field reads as `n div 60`, one
      colon, and the seconds field is exactly two digits reading as
      `n mod 60`, with a leading '0' exactly when that is below ten. */
  lemma FormatFields(n: nat)
    ensures var r := FormatWhole(n);
      && |r| >= 4 && r[|r| - 3] == ':'
      && Canonical(r[..|r| - 3]) && ParseNat(r[..|r| - 3]) == n / 60
      && AllDigits(r[|r| - 2..]) && ParseNat(r[|r| - 2..]) == n % 60 < 60
      && (r[|r| - 2] == '0' <==> n % 60 < 10)
      && forall i :: 0 <= i < |r| && i != |r| - 3 ==> r[i] != ':'
  {
    var r := FormatWhole(n);
    var m := NatToString(n / 60);
    PadSecondsFields(n % 60);
    ParseNatToString(n / 60);
    assert r[..|r| - 3] == m;
    assert r[|r| - 2..] == PadSeconds(n % 60);
  }

  /** Round trip: reading a label gives back the whole seconds it shows. */
  lemma ParseFormat(n: nat)
    ensures ParseTime(FormatWhole(n)) == Some(n)
  {
    FormatFields(n);
  }

  /** Two digits reading below 60 are exactly the padded seconds field of
      their value. */
  lemma PadSecondsParse(ss: string)
    requires |ss| == 2 && AllDigits(ss) && ParseNat(ss) < 60
    ensures PadSeconds(ParseNat(ss)) == ss
  {
    var v := ParseNat(ss);
    assert ss[..1][..0] == [] && ss[..1] == [ss[0]];
    assert v == 10 * DigitValue(ss[0]) + DigitValue(ss[1]);
    if v < 10 {
      assert DigitValue(ss[0]) == 0;
      assert PadSeconds(v) == ['0', DigitChar(v)];
    } else {
      assert ss[0] != '0';
      NatToStringParse(ss);
    }
  }

  /** Every string the reader accepts is the label of what it reads. */
  lemma ParsedIsLabel(t: string, n: nat)
    requires ParseTime(t) == Some(n)
    ensures FormatWhole(n) == t
  {
    var mm := t[..|t| - 3];
    var ss := t[|t| - 2..];
    var m := ParseNat(mm);
    var v := ParseNat(ss);
    assert n == 60 * m + v && v < 60;
    assert n / 60 == m && n % 60 == v;
    NatToStringParse(mm);
    PadSecondsParse(ss);
    assert t == mm + ":" + ss;
  }

  /** The label is the only string that reads as `n`: ParseTime accepts
      exactly the strings FormatWhole produces. */
  lemma FormatParse(t: string, n: nat)
    ensures ParseTime(t) == Some(n) <==> FormatWhole(n) == t
  {
    if FormatWhole(n) == t {
      ParseFormat(n);
    }
    if ParseTime(t) == Some(n) {
      ParsedIsLabel(t, n);
    }
  }

  /** Distinct whole seconds give distinct labels. */
  lemma FormatInjective(m: nat, n: nat)
    ensures FormatWhole(m) == FormatWhole(n) <==> m == n
  {
    if FormatWhole(m) == FormatWhole(n) {
      ParseFormat(m);
      ParseFormat(n);
    }
  }

  /** The time labels a frame writes while playing: both are refreshed only
      when the duration is a number (`None` stands for NaN, before the
      track's metadata is known); otherwise the labels are left as they were. */
  function TimeLabels(current: real, total: Option<real>): (r: Option<(string, string)>)
    requires current >= 0.0
    requires total.Some? ==> total.value >= 0.0
    ensures r.None? <==> total.None?
    ensures r.Some? ==> ParseTime(r.value.0) == Some(current.Floor)
    ensures r.Some? ==> ParseTime(r.value.1) == Some(total.value.Floor)
  {
    match total
    case None => None
    case Some(d) =>
      ParseFormat(current.Floor);
      ParseFormat(d.Floor);
      Some((FormatTime(current), FormatTime(d)))
  }
}
