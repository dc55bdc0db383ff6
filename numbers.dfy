/// Number reading and writing used by the ingestion pipeline
/// (lib/kmz-parser.ts): `Number.parseFloat` over a decimal grammar,
/// `Number.prototype.toFixed(4)` on exact reals, and `parseCoordinates`.
module Numbers {
  import opened Strings

  function Pow10(n: nat): (p: nat)
    ensures p >= 1
  {
    if n == 0 then 1 else 10 * Pow10(n - 1)
  }

  /** `10^e` as a real, for a signed exponent. */
  function Scale(e: int): (r: real)
    ensures r > 0.0
  {
    if e >= 0 then Pow10(e) as real else 1.0 / Pow10(-e) as real
  }

  /** The length of the run of decimal digits that starts at index `i`. */
  function DigitRun(s: string, i: nat): (n: nat)
    requires i <= |s|
    ensures i + n <= |s| && AllDigits(s[i..i + n])
    ensures i + n == |s| || !IsDigit(s[i + n])
    decreases |s| - i
  {
    if i < |s| && IsDigit(s[i]) then
      assert s[i..i + 1 + DigitRun(s, i + 1)] == [s[i]] + s[i + 1..i + 1 + DigitRun(s, i + 1)];
      1 + DigitRun(s, i + 1)
    else
      0
  }

  lemma {:induction false} DigitRunExact(s: string, i: nat, j: nat)
    requires i <= j <= |s|
    requires AllDigits(s[i..j])
    requires j == |s| || !IsDigit(s[j])
    ensures DigitRun(s, i) == j - i
    decreases j - i
  {
    if i < j {
      assert s[i] == s[i..j][0];
      assert s[i + 1..j] == s[i..j][1..];
      DigitRunExact(s, i + 1, j);
    }
  }

  /** 1 when the text starts with an explicit sign, else 0. */
  function SignLength(t: string): (n: nat)
    ensures n <= |t| && (n == 1 ==> t[0] == '+' || t[0] == '-')
  {
    if |t| > 0 && (t[0] == '+' || t[0] == '-') then 1 else 0
  }

  /** The exponent part `[eE][+-]?digits` at index `i`, or 0 when there is
      none (an `e` without digits is not consumed). */
  function ExponentAt(t: string, i: nat): int
    requires i <= |t|
  {
    if i < |t| && (t[i] == 'e' || t[i] == 'E') then
      ExponentDigits(t, i + 1, SignLength(t[i + 1..]), DigitRun(t, i + 1 + SignLength(t[i + 1..])))
    else
      0
  }

  /** The exponent whose optional sign starts at `j` and is `sign` long,
      followed by `n` digits. */
  function ExponentDigits(t: string, j: nat, sign: nat, n: nat): int
    requires j + sign + n <= |t| && AllDigits(t[j + sign..j + sign + n])
    requires sign == 1 ==> j < |t|
  {
    if n == 0 then 0
    else if sign == 1 && t[j] == '-' then -(DigitsValue(t[j + sign..j + sign + n]) as int)
    else DigitsValue(t[j + sign..j + sign + n])
  }

  /** The value of `intDigits.fracDigits`. */
  function MantissaValue(intDigits: string, fracDigits: string): real
    requires AllDigits(intDigits) && AllDigits(fracDigits)
  {
    DigitsValue(intDigits) as real + DigitsValue(fracDigits) as real / Pow10(|fracDigits|) as real
  }

  /** The value with the sign the text starts with. */
  function ApplySign(t: string, v: real): real
  {
    if |t| > 0 && t[0] == '-' then -v else v
  }

  /** Where the mantissa ends: after the point and its digits when a point
      follows the integer digits at `q`, else at `q`. */
  function MantissaEnd(t: string, q: nat): (e: nat)
    requires q <= |t|
    ensures q <= e <= |t|
    ensures e > q ==> t[q] == '.' && AllDigits(t[q + 1..e])
  {
    if q < |t| && t[q] == '.' then q + 1 + DigitRun(t, q + 1) else q
  }

  /** The value of the literal whose integer digits are `t[p..q]` and whose
      mantissa ends at `e`, or None when the mantissa holds no digit. */
  function DecimalValue(t: string, p: nat, q: nat, e: nat): Option<real>
    requires p <= q <= e <= |t| && AllDigits(t[p..q])
    requires e > q ==> t[q] == '.' && AllDigits(t[q + 1..e])
  {
    if q == p && e <= q + 1 then None
    else Some(ApplySign(t, MantissaValue(t[p..q], Fraction(t, q, e)) * Scale(ExponentAt(t, e))))
  }

  /** The fraction digits of a mantissa that ends at `e`. */
  function Fraction(t: string, q: nat, e: nat): (f: string)
    requires q <= e <= |t|
    requires e > q ==> AllDigits(t[q + 1..e])
    ensures AllDigits(f)
  {
    if e > q then t[q + 1..e] else []
  }

  /** The longest prefix of `t` that is a signed decimal literal with an
      optional fraction and exponent, or None when `t` does not start with one. */
  function ParseDecimal(t: string): Option<real>
  {
    DecimalAfterDigits(t, SignLength(t), SignLength(t) + DigitRun(t, SignLength(t)))
  }

  /** The literal once its integer digits `t[p..q]` are known. */
  function DecimalAfterDigits(t: string, p: nat, q: nat): Option<real>
    requires p <= q <= |t| && AllDigits(t[p..q])
  {
    DecimalValue(t, p, q, MantissaEnd(t, q))
  }

  /** `Number.parseFloat`: leading white space is skipped, then the longest
      decimal prefix is read; None stands for NaN. */
  function ParseFloat(s: string): Option<real>
  {
    ParseDecimal(TrimStart(s))
  }

  // ---------------------------------------------------------------------------
  // toFixed(4)

  function Zeros(k: nat): (z: string)
    ensures |z| == k && AllDigits(z)
  {
    seq(k, _ => '0')
  }

  /** The integer `n` that `toFixed(4)` renders for a non-negative `a`: the
      closest to `a * 10^4`, the larger one on a tie. */
  function FixedUnits(a: real): (n: nat)
    requires a >= 0.0
    ensures (n as real) - 0.5 <= a * 10000.0 < (n as real) + 0.5
  {
    (a * 10000.0 + 0.5).Floor
  }

  /** The decimal rendering of `n / 10^4` with exactly four fraction
      digits and at least one integer digit. */
  function FixedBody(n: nat): string
  {
    WithPoint(PaddedDigits(n))
  }

  /** The digits with a point before the last four. */
  function WithPoint(digits: string): string
    requires |digits| >= 4
  {
    digits[..|digits| - 4] + "." + digits[|digits| - 4..]
  }

  /** The decimal digits of `n`, left-padded with zeros to at least five. */
  function PaddedDigits(n: nat): (d: string)
    ensures |d| >= 5 && AllDigits(d)
  {
    if |NatToString(n)| < 5 then
      AllDigitsConcat(Zeros(5 - |NatToString(n)|), NatToString(n));
      Zeros(5 - |NatToString(n)|) + NatToString(n)
    else NatToString(n)
  }

  /** `x.toFixed(4)` for |x| < 10^21: a minus sign for a negative `x`, then
      the rounded magnitude with four fraction digits. */
  function ToFixed4(x: real): string
  {
    if x < 0.0 then "-" + FixedBody(FixedUnits(-x)) else FixedBody(FixedUnits(x))
  }

  /** The value that `ToFixed4` denotes: `x` rounded to four decimals. */
  function Rounded4(x: real): real
  {
    if x < 0.0 then -(FixedUnits(-x) as real / 10000.0) else FixedUnits(x) as real / 10000.0
  }

  lemma AllDigitsConcat(a: string, b: string)
    requires AllDigits(a) && AllDigits(b)
    ensures AllDigits(a + b)
  {
    forall i | 0 <= i < |a + b| ensures IsDigit((a + b)[i]) {
      if i < |a| { assert (a + b)[i] == a[i]; } else { assert (a + b)[i] == b[i - |a|]; }
    }
  }

  lemma ShiftDigit(va: int, p: int, vb: int, d: int)
    ensures (va * p + vb) * 10 + d == va * (p * 10) + (vb * 10 + d)
  {
  }

  lemma {:induction false} DigitsValueConcat(a: string, b: string)
    requires AllDigits(a) && AllDigits(b)
    ensures AllDigits(a + b)
    ensures DigitsValue(a + b) == DigitsValue(a) * Pow10(|b|) + DigitsValue(b)
    decreases |b|
  {
    AllDigitsConcat(a, b);
    if b == [] {
      assert a + b == a;
    } else {
      var b' := b[..|b| - 1];
      assert (a + b)[..|a + b| - 1] == a + b';
      assert (a + b)[|a + b| - 1] == b[|b| - 1];
      DigitsValueConcat(a, b');
      ShiftDigit(DigitsValue(a), Pow10(|b'|), DigitsValue(b'), DigitValue(b[|b| - 1]));
    }
  }

  lemma {:induction false} DigitsValueZeros(k: nat)
    ensures DigitsValue(Zeros(k)) == 0
  {
    if k > 0 {
      assert Zeros(k)[..k - 1] == Zeros(k - 1);
      DigitsValueZeros(k - 1);
    }
  }

  /** Leading zeros do not change the value of a digit string. */
  lemma ZerosPrefixValue(k: nat, m: string)
    requires AllDigits(m)
    ensures DigitsValue(Zeros(k) + m) == DigitsValue(m)
  {
    DigitsValueConcat(Zeros(k), m);
    DigitsValueZeros(k);
  }

  /** Padding with zeros keeps the value. */
  lemma PaddedDigitsValue(n: nat)
    ensures DigitsValue(PaddedDigits(n)) == n
  {
    if |NatToString(n)| < 5 {
      ZerosPrefixValue(5 - |NatToString(n)|, NatToString(n));
    }
    DigitsValueOfNatToString(n);
  }

  /** The digits `FixedBody` prints, split at the point. */
  lemma FixedDigits(n: nat) returns (ip: string, fp: string)
    ensures AllDigits(ip) && |ip| >= 1 && AllDigits(fp) && |fp| == 4
    ensures FixedBody(n) == ip + "." + fp
    ensures DigitsValue(ip) * 10000 + DigitsValue(fp) == n
  {
    var digits := PaddedDigits(n);
    PaddedDigitsValue(n);
    ip, fp := digits[..|digits| - 4], digits[|digits| - 4..];
    assert ip + fp == digits;
    DigitsValueConcat(ip, fp);
  }

  /** What `ParseDecimal` returns once the digit runs of a literal with a
      point and no exponent are known. */
  lemma MantissaEndAfterPoint(t: string, q: nat, n2: nat)
    requires q < |t| && t[q] == '.' && DigitRun(t, q + 1) == n2
    ensures MantissaEnd(t, q) == q + 1 + n2
  {
  }

  lemma DigitRunDigits(t: string, i: nat, j: nat)
    requires i <= j <= |t| && DigitRun(t, i) == j - i
    ensures AllDigits(t[i..j])
  {
  }

  /** `ParseDecimal` reads the sign and the integer digits, then the rest. */
  lemma ParseDecimalSplit(t: string, p: nat, q: nat)
    requires p <= q <= |t| && SignLength(t) == p && DigitRun(t, p) == q - p
    ensures ParseDecimal(t) == DecimalAfterDigits(t, p, q)
  {
  }

  /** The literal's value once the end of its mantissa is known. */
  lemma MantissaAt(t: string, p: nat, q: nat, e: nat)
    requires p <= q <= |t| && AllDigits(t[p..q]) && MantissaEnd(t, q) == e
    ensures DecimalAfterDigits(t, p, q) == DecimalValue(t, p, q, e)
  {
  }

  lemma DecimalWithPoint(t: string, p: nat, q: nat, e: nat)
    requires p <= q < e <= |t| && AllDigits(t[p..q])
    requires t[q] == '.' && AllDigits(t[q + 1..e]) && ExponentAt(t, e) == 0
    requires q > p || e > q + 1
    ensures DecimalValue(t, p, q, e) == Some(ApplySign(t, MantissaValue(t[p..q], t[q + 1..e])))
  {
    assert Fraction(t, q, e) == t[q + 1..e];
    var m := MantissaValue(t[p..q], t[q + 1..e]);
    assert m * Scale(0) == m by {
      assert Scale(0) == 1.0;
    }
    assert |t[q + 1..e]| == e - q - 1;
  }

  lemma FixedSlices(sign: string, ip: string, fp: string, t: string)
    requires sign == "" || sign == "-"
    requires |ip| >= 1 && IsDigit(ip[0]) && |fp| == 4
    requires t == sign + ip + "." + fp
    ensures t[|sign|..|sign| + |ip|] == ip && t[|sign| + |ip|] == '.'
    ensures t[|sign| + |ip| + 1..|sign| + |ip| + 5] == fp && |t| == |sign| + |ip| + 5
    ensures SignLength(t) == |sign| && (t[0] == '-' <==> sign == "-")
  {
  }

  /** Reading a fixed-point rendering back gives its digits' value. */
  lemma ParseDecimalFixed(sign: string, ip: string, fp: string)
    requires sign == "" || sign == "-"
    requires AllDigits(ip) && |ip| >= 1 && AllDigits(fp) && |fp| == 4
    ensures ParseDecimal(sign + ip + "." + fp) ==
      Some(if sign == "-" then -MantissaValue(ip, fp) else MantissaValue(ip, fp))
  {
    var t := sign + ip + "." + fp;
    FixedSlices(sign, ip, fp, t);
    FixedLiteral(t, |sign|, |sign| + |ip|);
  }

  /** A sign, integer digits, a point and four fraction digits, and nothing
      after them. */
  lemma FixedLiteral(t: string, p: nat, q: nat)
    requires p < q && |t| == q + 5 && SignLength(t) == p
    requires AllDigits(t[p..q]) && t[q] == '.' && AllDigits(t[q + 1..q + 5])
    ensures ParseDecimal(t) == Some(ApplySign(t, MantissaValue(t[p..q], t[q + 1..q + 5])))
  {
    DigitRunExact(t, p, q);
    DigitRunExact(t, q + 1, q + 5);
    calc {
      ParseDecimal(t);
      == { ParseDecimalSplit(t, p, q); }
      DecimalAfterDigits(t, p, q);
      == { MantissaEndAfterPoint(t, q, 4); MantissaAt(t, p, q, |t|); }
      DecimalValue(t, p, q, |t|);
      == { DecimalWithPoint(t, p, q, |t|); }
      Some(ApplySign(t, MantissaValue(t[p..q], t[q + 1..q + 5])));
    }
  }

  lemma MantissaFixed(ip: string, fp: string)
    requires AllDigits(ip) && AllDigits(fp) && |fp| == 4
    ensures MantissaValue(ip, fp) == (DigitsValue(ip) * 10000 + DigitsValue(fp)) as real / 10000.0
  {
    assert Pow10(|fp|) == 10000;
  }

  /** The pieces of `ToFixed4(x)`: sign, integer digits, point, fraction. */
  lemma ToFixed4Parts(x: real) returns (sign: string, ip: string, fp: string)
    ensures sign == (if x < 0.0 then "-" else "")
    ensures AllDigits(ip) && |ip| >= 1 && AllDigits(fp) && |fp| == 4
    ensures ToFixed4(x) == sign + ip + "." + fp
    ensures MantissaValue(ip, fp) == FixedUnits(if x < 0.0 then -x else x) as real / 10000.0
    ensures Rounded4(x) == if sign == "-" then -MantissaValue(ip, fp) else MantissaValue(ip, fp)
  {
    var n := FixedUnits(if x < 0.0 then -x else x);
    ip, fp := FixedDigits(n);
    MantissaFixed(ip, fp);
    if x < 0.0 {
      sign := "-";
      assert ToFixed4(x) == sign + (ip + "." + fp);
      assert sign + (ip + "." + fp) == sign + ip + "." + fp;
    } else {
      sign := "";
      assert sign + ip + "." + fp == ip + "." + fp;
    }
  }

  lemma ToFixed4Shape(x: real)
    ensures ToFixed4(x) != [] && !IsSpace(ToFixed4(x)[0]) && ',' !in ToFixed4(x)
  {
    var sign, ip, fp := ToFixed4Parts(x);
    assert forall k :: 0 <= k < |ip| ==> IsDigit(ip[k]);
    assert forall k :: 0 <= k < |fp| ==> IsDigit(fp[k]);
    assert ToFixed4(x)[0] == if sign == "" then ip[0] else '-';
  }

  lemma TrimStartNonSpace(t: string)
    requires t != [] && !IsSpace(t[0])
    ensures TrimStart(t) == t
  {
  }

  /** A fixed-point rendering has no leading white space, so `parseFloat`
      reads it from its first character. */
  lemma ParseFloatFixed(sign: string, ip: string, fp: string)
    requires sign == "" || sign == "-"
    requires AllDigits(ip) && |ip| >= 1 && AllDigits(fp) && |fp| == 4
    ensures ParseFloat(sign + ip + "." + fp) ==
      Some(if sign == "-" then -MantissaValue(ip, fp) else MantissaValue(ip, fp))
  {
    var t := sign + ip + "." + fp;
    assert t[0] == if sign == "" then ip[0] else '-';
    assert IsDigit(ip[0]);
    TrimStartNonSpace(t);
    ParseDecimalFixed(sign, ip, fp);
  }

  /** `toFixed(4)` followed by `parseFloat` yields `x` rounded to four
      decimals. */
  lemma ToFixed4RoundTrip(x: real)
    ensures ParseFloat(ToFixed4(x)) == Some(Rounded4(x))
  {
    var sign, ip, fp := ToFixed4Parts(x);
    ParseFloatFixed(sign, ip, fp);
  }

  /** The rounding `toFixed(4)` applies is within half a unit of the fourth
      decimal. */
  lemma Rounded4Error(x: real)
    ensures -0.00005 <= Rounded4(x) - x <= 0.00005
  {
  }

  // ---------------------------------------------------------------------------
  // parseCoordinates

  datatype Coordinates = Coordinates(latitude: real, longitude: real)

  /** `parseCoordinates`: the trimmed text split at commas, longitude first,
      latitude second, anything after ignored; None when there are fewer than
      two parts or either of the first two is not a number. No range check. */
  function ParseCoordinates(text: string): Option<Coordinates>
  {
    CoordinatesFrom(Split(Trim(text), ','))
  }

  /** The coordinates read from the comma-separated fields. */
  function CoordinatesFrom(parts: seq<string>): Option<Coordinates>
  {
    if |parts| >= 2 then
      match (ParseFloat(parts[0]), ParseFloat(parts[1]))
      case (Some(longitude), Some(latitude)) => Some(Coordinates(latitude, longitude))
      case _ => None
    else
      None
  }

  lemma {:induction false} TrimEndAfterNonSpace(x: string, y: string)
    requires x != [] && !IsSpace(x[|x| - 1])
    ensures TrimEnd(x + y) == x + TrimEnd(y)
    decreases |y|
  {
    if y == [] {
      assert x + y == x;
    } else if IsSpace(y[|y| - 1]) {
      assert (x + y)[..|x + y| - 1] == x + y[..|y| - 1];
      TrimEndAfterNonSpace(x, y[..|y| - 1]);
    }
  }

  /** The text without a comma has a single part, so it is rejected. */
  lemma ParseCoordinatesNeedsComma(text: string)
    requires ',' !in text
    ensures ParseCoordinates(text) == None
  {
    var r := Trim(text);
    TrimKeepsOut(text, ',');
    SplitNoSeparator(r, ',');
  }

  /** The first two comma-separated fields decide the result: a third
      (altitude) field and everything after it are ignored. */
  lemma CoordinateFields(lng: string, lat: string, rest: string)
    requires ',' !in lng && ',' !in lat
    requires lng != [] && !IsSpace(lng[0])
    ensures ParseCoordinates(lng + "," + lat + "," + rest) ==
      match (ParseFloat(lng), ParseFloat(lat))
      case (Some(x), Some(y)) => Some(Coordinates(y, x))
      case _ => None
  {
    var w := lng + "," + lat + "," + rest;
    CoordinateTrim(lng, lat, rest);
    CoordinateSplit(lng, lat, TrimEnd(rest));
    var parts := Split(Trim(w), ',');
    assert |parts| >= 2 && parts[0] == lng && parts[1] == lat;
  }

  /** Trimming the text only touches the end of the third field. */
  lemma CoordinateTrim(lng: string, lat: string, rest: string)
    requires lng != [] && !IsSpace(lng[0])
    ensures Trim(lng + "," + lat + "," + rest) == lng + [','] + (lat + [','] + TrimEnd(rest))
  {
    CommaFields(lng, lat, rest);
    CommaHead(lng, lat);
    TrimAfterNonSpace(lng + [','] + lat + [','], rest);
    CommaFields(lng, lat, TrimEnd(rest));
  }

  /** The text of two fields and a third, each followed by a comma. */
  lemma CommaFields(lng: string, lat: string, rest: string)
    ensures lng + "," + lat + "," + rest == (lng + [','] + lat + [',']) + rest
    ensures (lng + [','] + lat + [',']) + rest == lng + [','] + (lat + [','] + rest)
  {
  }

  lemma CommaHead(lng: string, lat: string)
    requires lng != []
    ensures (lng + [','] + lat + [','])[0] == lng[0]
    ensures (lng + [','] + lat + [','])[|lng + [','] + lat + [',']| - 1] == ','
  {
  }

  /** Text that starts and ends with a non-space character keeps all of it
      when more text follows. */
  lemma TrimAfterNonSpace(head: string, rest: string)
    requires head != [] && !IsSpace(head[0]) && !IsSpace(head[|head| - 1])
    ensures Trim(head + rest) == head + TrimEnd(rest)
  {
    assert (head + rest)[0] == head[0];
    TrimStartNonSpace(head + rest);
    TrimEndAfterNonSpace(head, rest);
  }

  lemma CoordinateSplit(lng: string, lat: string, tail: string)
    requires ',' !in lng && ',' !in lat
    ensures Split(lng + [','] + (lat + [','] + tail), ',') == [lng, lat] + Split(tail, ',')
  {
    SplitAtFirst(lng, ',', lat + [','] + tail);
    SplitAtFirst(lat, ',', tail);
  }

  /** Coordinates written as `lng,lat,alt` with `toFixed(4)` read back as the
      rounded latitude and longitude, whatever the altitude field holds. */
  lemma ParseCoordinatesRoundTrip(lat: real, lng: real, alt: string)
    ensures ParseCoordinates(ToFixed4(lng) + "," + ToFixed4(lat) + "," + alt)
         == Some(Coordinates(Rounded4(lat), Rounded4(lng)))
  {
    ToFixed4Shape(lng);
    ToFixed4Shape(lat);
    ToFixed4RoundTrip(lng);
    ToFixed4RoundTrip(lat);
    CoordinateFields(ToFixed4(lng), ToFixed4(lat), alt);
  }
}
