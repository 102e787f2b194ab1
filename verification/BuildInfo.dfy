/** The build-information stamping script: every `KEY {…}` field of the
    board design TCL file for the keys `G_BUILD_COMMIT_HASH`, `G_BUILD_DATE`
    and `G_BUILD_TIME` is rewritten with the commit hash and the build date
    and time. The regular expression `KEY \{(.*?)\}` with Python's `re.sub`
    is modelled directly: a field starts with `KEY {` and ends at the first
    `}` after it, and no newline may come before that `}`. The repository
    lookup and the clock become arguments. */
module BuildInfo {
  import opened Wrappers
  import opened Strings

  const CommitKey: string := "G_BUILD_COMMIT_HASH"
  const DateKey: string := "G_BUILD_DATE"
  const TimeKey: string := "G_BUILD_TIME"

  /** The text that opens a field of `key`. */
  function Opening(key: string): string {
    key + " {"
  }

  /** The first position at or after `j` holding `}` or a newline, or the
      end of `s`: where a lazy `.*?` followed by `\}` must stop. */
  function Close(s: string, j: nat): (k: nat)
    requires j <= |s|
    ensures j <= k <= |s|
    ensures k < |s| ==> s[k] == '}' || s[k] == '\n'
    ensures forall m :: j <= m < k ==> s[m] != '}' && s[m] != '\n'
    decreases |s| - j
  {
    if j == |s| || s[j] == '}' || s[j] == '\n' then j else Close(s, j + 1)
  }

  /** The length of the field match at the start of `s`, if there is one. */
  function FieldLen(s: string, open: string): (r: Option<nat>)
    ensures r.Some? ==> StartsWith(s, open) && |open| < r.value <= |s| && s[r.value - 1] == '}'
    ensures r.Some? ==> forall m :: |open| <= m < r.value - 1 ==> s[m] != '}' && s[m] != '\n'
    ensures r.None? && StartsWith(s, open) ==> forall m :: |open| <= m < |s| && s[m] == '}' ==> exists n :: |open| <= n < m && s[n] == '\n'
  {
    if !StartsWith(s, open) then None
    else
      var k := Close(s, |open|);
      if k < |s| && s[k] == '}' then Some(k + 1) else None
  }

  /** `re.sub` of the field pattern with the literal replacement `repl`:
      scanning left to right, every field is replaced and the scan resumes
      after it; every other character is copied. */
  function Sub(s: string, open: string, repl: string): (r: string)
    requires |open| > 0
    decreases |s|
  {
    if |s| == 0 then []
    else match FieldLen(s, open)
      case Some(n) => repl + Sub(s[n..], open, repl)
      case None => [s[0]] + Sub(s[1..], open, repl)
  }

  /** `replace_txt` for a key: every field of `key` gets `value`. */
  function ReplaceField(data: string, key: string, value: string): string {
    Sub(data, Opening(key), Opening(key) + value + "}")
  }

  /** Text in which no field starts is copied unchanged, whatever follows. */
  lemma {:induction false} SubPlain(p: string, rest: string, open: string, repl: string)
    requires |open| > 0
    requires forall k :: 0 <= k < |p| ==> FieldLen((p + rest)[k..], open).None?
    ensures Sub(p + rest, open, repl) == p + Sub(rest, open, repl)
    decreases |p|
  {
    if |p| > 0 {
      var s := p + rest;
      assert s[0..] == s;
      assert FieldLen(s, open).None?;
      assert s[1..] == p[1..] + rest;
      assert p == [p[0]] + p[1..] && s[0] == p[0];
      assert Sub(s, open, repl) == [s[0]] + Sub(s[1..], open, repl);
      forall k | 0 <= k < |p| - 1 ensures FieldLen((p[1..] + rest)[k..], open).None? {
        assert (p[1..] + rest)[k..] == s[k + 1..];
      }
      SubPlain(p[1..], rest, open, repl);
      assert p + Sub(rest, open, repl) == [p[0]] + (p[1..] + Sub(rest, open, repl));
    } else {
      assert p + rest == rest;
    }
  }

  /** A complete field, whose value holds no `}` and no newline, is replaced
      as a whole, and the scan goes on right after its `}`. */
  lemma SubField(v: string, rest: string, open: string, repl: string)
    requires |open| > 0 && '}' !in v && '\n' !in v && '}' !in open
    ensures Sub(open + v + "}" + rest, open, repl) == repl + Sub(rest, open, repl)
  {
    var s := open + v + "}" + rest;
    assert s[..|open|] == open;
    var k := Close(s, |open|);
    forall m | |open| <= m < |open| + |v| ensures s[m] != '}' && s[m] != '\n' {
      assert s[m] == v[m - |open|];
    }
    assert s[|open| + |v|] == '}';
    assert k == |open| + |v|;
    assert s[k + 1..] == rest;
  }

  /** Text without any opening of the key is left as it is. */
  lemma SubWithoutOpening(s: string, open: string, repl: string)
    requires |open| > 0
    requires forall k :: 0 <= k <= |s| ==> !StartsWith(s[k..], open)
    ensures Sub(s, open, repl) == s
  {
    forall k | 0 <= k < |s| ensures FieldLen((s + [])[k..], open).None? {
      assert s + [] == s;
    }
    SubPlain(s, [], open, repl);
    assert s + [] == s;
  }

  // ---------------------------------------------------------------------
  // Stamps
  // ---------------------------------------------------------------------

  /** `s[:n]`. */
  function Take(s: string, n: nat): (r: string)
    ensures |r| == if |s| <= n then |s| else n
    ensures r == s[..|r|]
  {
    if |s| <= n then s else s[..n]
  }

  /** The commit field: `0x` and the first eight characters of the HEAD
      hash. */
  function CommitValue(head: string): (v: string)
    ensures |v| >= 2 && v[..2] == "0x" && v[2..] == Take(head, 8)
    ensures |head| >= 8 ==> |v| == 10
  {
    "0x" + Take(head, 8)
  }

  /** `str(n).rjust(width, "0")`. */
  function Padded(n: nat, width: nat): (r: string)
    ensures forall i :: 0 <= i < |r| ==> IsDigit(r[i])
    ensures 1 <= width && n < Pow10(width) ==> |r| == width
    ensures ParseDecimal(r) == n
  {
    PaddedReadsBack(n, width);
    Rjust(Decimal(n), width, '0')
  }

  /** Zero padding keeps the digits' value, and a number below `10^width`
      pads to exactly `width` characters. */
  lemma PaddedReadsBack(n: nat, width: nat)
    ensures var r := Rjust(Decimal(n), width, '0');
            && (forall i :: 0 <= i < |r| ==> IsDigit(r[i]))
            && (1 <= width && n < Pow10(width) ==> |r| == width)
            && ParseDecimal(r) == n
  {
    var d := Decimal(n);
    if 1 <= width && n < Pow10(width) {
      DecimalLength(n, width);
    }
    ParseDecimalOfDecimal(n);
    if |d| < width {
      ParseDecimalLeadingZeros(width - |d|, d);
    }
  }

  /** The date field: `0x`, the year padded to four digits, the month and
      the day to two. */
  function DateValue(year: nat, month: nat, day: nat): (v: string)
    ensures |v| >= 2 && v[..2] == "0x"
  {
    var digits := Padded(year, 4) + Padded(month, 2) + Padded(day, 2);
    HexPrefix(digits);
    "0x" + digits
  }

  /** The time field: `0x`, hours, minutes and seconds padded to two digits,
      and a literal `00`. */
  function TimeValue(hour: nat, minute: nat, second: nat): (v: string)
    ensures |v| >= 4 && v[..2] == "0x"
    ensures v[|v| - 2..] == "00"
  {
    var digits := Padded(hour, 2) + Padded(minute, 2) + Padded(second, 2);
    ZeroTail(digits);
    "0x" + (digits + "00")
  }

  lemma HexPrefix(digits: string)
    ensures |"0x" + digits| == |digits| + 2 && ("0x" + digits)[..2] == "0x" && ("0x" + digits)[2..] == digits
  {
  }

  lemma ZeroTail(digits: string)
    ensures var v := "0x" + (digits + "00");
            |v| == |digits| + 4 && v[..2] == "0x" && v[|v| - 2..] == "00"
  {
    var v := "0x" + (digits + "00");
    assert v[..2] == "0x";
    assert v[|v| - 2..] == "00";
  }

  lemma DoubleZero()
    ensures forall i :: 0 <= i < |"00"| ==> IsDigit("00"[i])
    ensures ParseDecimal("00") == 0
  {
    assert "00"[..1] == "0";
    assert "0"[..0] == "";
  }

  lemma Pow10Small()
    ensures Pow10(2) == 100 && Pow10(4) == 10000
  {
    assert Pow10(1) == 10;
    assert Pow10(3) == 1000;
  }

  /** The digits of a value after its `0x`, read as a decimal number. */
  function DigitsValue(v: string): nat
    requires |v| >= 2 && forall i :: 2 <= i < |v| ==> IsDigit(v[i])
  {
    ParseDecimal(v[2..])
  }

  /** Appending a string of digits to a string of digits shifts the value
      of the first by the length of the second. */
  lemma {:induction false} ParseDecimalAppend(a: string, b: string)
    requires forall i :: 0 <= i < |a| ==> IsDigit(a[i])
    requires forall i :: 0 <= i < |b| ==> IsDigit(b[i])
    ensures forall i :: 0 <= i < |a + b| ==> IsDigit((a + b)[i])
    ensures ParseDecimal(a + b) == ParseDecimal(a) * Pow10(|b|) + ParseDecimal(b)
    decreases |b|
  {
    var ab := a + b;
    assert forall i :: 0 <= i < |ab| ==> IsDigit(ab[i]) by {
      forall i | 0 <= i < |ab| ensures IsDigit(ab[i]) {
        if i < |a| { assert ab[i] == a[i]; } else { assert ab[i] == b[i - |a|]; }
      }
    }
    if |b| == 0 {
      assert ab == a;
    } else {
      var b' := b[..|b| - 1];
      var c := b[|b| - 1];
      assert ab[..|ab| - 1] == a + b';
      assert ab[|ab| - 1] == c;
      ParseDecimalAppend(a, b');
      var x, y := ParseDecimal(a), Pow10(|b'|);
      assert ParseDecimal(a + b') == x * y + ParseDecimal(b');
      assert ParseDecimal(ab) == 10 * ParseDecimal(a + b') + DigitValue(c);
      assert ParseDecimal(b) == 10 * ParseDecimal(b') + DigitValue(c);
      assert Pow10(|b|) == 10 * y;
      ScaleTen(x, y);
    }
  }

  lemma ScaleTen(x: nat, y: nat)
    ensures 10 * (x * y) == x * (10 * y)
  {
  }

  /** Three digit strings behind `0x`, the last two of width two, read
      back as one decimal number in which each is shifted by two places. */
  lemma {:induction false} PrefixedDigits(a: string, b: string, c: string)
    requires forall i :: 0 <= i < |a| ==> IsDigit(a[i])
    requires forall i :: 0 <= i < |b| ==> IsDigit(b[i])
    requires forall i :: 0 <= i < |c| ==> IsDigit(c[i])
    requires |b| == 2 && |c| == 2
    ensures var v := "0x" + (a + b + c);
            && |v| == |a| + 6
            && (forall i :: 2 <= i < |v| ==> IsDigit(v[i]))
            && DigitsValue(v) == (ParseDecimal(a) * 100 + ParseDecimal(b)) * 100 + ParseDecimal(c)
  {
    Pow10Small();
    ParseDecimalAppend(a, b);
    ParseDecimalAppend(a + b, c);
    var v := "0x" + (a + b + c);
    HexPrefix(a + b + c);
    forall i | 2 <= i < |v| ensures IsDigit(v[i]) {
      assert v[i] == (a + b + c)[i - 2];
    }
  }

  /** A valid calendar date stamps as the eight digits `YYYYMMDD`: the
      value after `0x` reads back, in decimal, as year, month and day. */
  lemma DateValueReadsBack(year: nat, month: nat, day: nat)
    requires year < 10000 && month < 100 && day < 100
    ensures var v := DateValue(year, month, day);
            && |v| == 10
            && (forall i :: 2 <= i < |v| ==> IsDigit(v[i]))
            && DigitsValue(v) == year * 10000 + month * 100 + day
  {
    Pow10Small();
    PrefixedDigits(Padded(year, 4), Padded(month, 2), Padded(day, 2));
  }

  /** A valid time of day stamps as `HHMMSS00`: the value after `0x` reads
      back as the time in seconds-resolution digits, times 100. */
  lemma TimeValueReadsBack(hour: nat, minute: nat, second: nat)
    requires hour < 100 && minute < 100 && second < 100
    ensures var v := TimeValue(hour, minute, second);
            && |v| == 10
            && (forall i :: 2 <= i < |v| ==> IsDigit(v[i]))
            && DigitsValue(v) == ((hour * 100 + minute) * 100 + second) * 100
  {
    TimeValueParts(hour, minute, second);
    TimeDigits(Padded(hour, 2), Padded(minute, 2), Padded(second, 2), TimeValue(hour, minute, second));
  }

  lemma TimeValueParts(hour: nat, minute: nat, second: nat)
    requires hour < 100 && minute < 100 && second < 100
    ensures |Padded(hour, 2)| == 2 && |Padded(minute, 2)| == 2 && |Padded(second, 2)| == 2
    ensures TimeValue(hour, minute, second) == "0x" + (Padded(hour, 2) + Padded(minute, 2) + Padded(second, 2) + "00")
  {
    Pow10Small();
  }

  /** Hours, minutes and seconds of two digits each, then `00`, behind `0x`. */
  lemma TimeDigits(h: string, m: string, s: string, v: string)
    requires forall i :: 0 <= i < |h| ==> IsDigit(h[i])
    requires forall i :: 0 <= i < |m| ==> IsDigit(m[i])
    requires forall i :: 0 <= i < |s| ==> IsDigit(s[i])
    requires |h| == 2 && |m| == 2 && |s| == 2
    requires v == "0x" + (h + m + s + "00")
    ensures |v| == 10
    ensures forall i :: 2 <= i < |v| ==> IsDigit(v[i])
    ensures DigitsValue(v) == ((ParseDecimal(h) * 100 + ParseDecimal(m)) * 100 + ParseDecimal(s)) * 100
  {
    Pow10Small();
    ParseDecimalAppend(h, m);
    DoubleZero();
    PrefixedDigits(h + m, s, "00");
  }

  /** A moment, as the script reads it from the clock. */
  datatype Moment = Moment(year: nat, month: nat, day: nat, hour: nat, minute: nat, second: nat)

  /** The whole rewrite: commit, then date, then time. */
  function Stamp(data: string, head: string, now: Moment): (r: string)
  {
    var d1 := ReplaceField(data, CommitKey, CommitValue(head));
    var d2 := ReplaceField(d1, DateKey, DateValue(now.year, now.month, now.day));
    ReplaceField(d2, TimeKey, TimeValue(now.hour, now.minute, now.second))
  }

  /** A file without any of the three fields is written back unchanged. */
  lemma StampWithoutFields(data: string, head: string, now: Moment)
    requires forall k :: 0 <= k <= |data| ==>
      !StartsWith(data[k..], Opening(CommitKey)) && !StartsWith(data[k..], Opening(DateKey))
      && !StartsWith(data[k..], Opening(TimeKey))
    ensures Stamp(data, head, now) == data
  {
    SubWithoutOpening(data, Opening(CommitKey), Opening(CommitKey) + CommitValue(head) + "}");
    SubWithoutOpening(data, Opening(DateKey), Opening(DateKey) + DateValue(now.year, now.month, now.day) + "}");
    SubWithoutOpening(data, Opening(TimeKey), Opening(TimeKey) + TimeValue(now.hour, now.minute, now.second) + "}");
  }

  /** A field, whatever it held, is rewritten with the new value, and the
      text after it is processed on. */
  lemma FieldRewritten(key: string, prior: string, rest: string, value: string)
    requires '}' !in key && '}' !in prior && '\n' !in prior
    ensures ReplaceField(Opening(key) + prior + "}" + rest, key, value)
      == Opening(key) + value + "}" + ReplaceField(rest, key, value)
  {
    var open := Opening(key);
    assert '}' !in open by {
      forall i | 0 <= i < |open| ensures open[i] != '}' {
        if i < |key| { assert open[i] == key[i]; }
      }
    }
    SubField(prior, rest, open, open + value + "}");
  }
}
