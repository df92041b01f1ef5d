/** The three number parsers the resolver relies on:
    `ulong.TryParse(s, NumberStyles.None, CultureInfo.InvariantCulture)` (bare id),
    `ushort.TryParse(s)` with the default `NumberStyles.Integer` (discriminator),
    and Discord.Net's `MentionUtils.TryParseUser` (user mention). */
module Parsing {
  import opened Wrappers

  const ULongMax: nat := 0xFFFF_FFFF_FFFF_FFFF
  const UShortMax: nat := 0xFFFF

  predicate IsDigit(c: char)
  {
    '0' <= c <= '9'
  }

  predicate AllDigits(s: string)
  {
    forall i :: 0 <= i < |s| ==> IsDigit(s[i])
  }

  /** The white space `NumberStyles.AllowLeadingWhite`/`AllowTrailingWhite`
      admit: U+0009 to U+000D and U+0020. */
  predicate IsWhite(c: char)
  {
    c == ' ' || '\t' <= c <= '\r'
  }

  predicate AllWhite(s: string)
  {
    forall i :: 0 <= i < |s| ==> IsWhite(s[i])
  }

  /** The decimal value of a digit string, most significant digit first. */
  function DigitsValue(s: string): nat
    requires AllDigits(s)
  {
    if |s| == 0 then 0
    else DigitsValue(s[..|s| - 1]) * 10 + (s[|s| - 1] as int - '0' as int)
  }

  /** Canonical decimal rendering of `n`: no sign, no padding. */
  function ToDecimal(n: nat): (s: string)
    ensures |s| > 0 && AllDigits(s)
  {
    var d := (n % 10 + '0' as int) as char;
    if n < 10 then [d] else ToDecimal(n / 10) + [d]
  }

  lemma {:induction false} DigitsValueOfDecimal(n: nat)
    ensures DigitsValue(ToDecimal(n)) == n
  {
    var s := ToDecimal(n);
    if n >= 10 {
      DigitsValueOfDecimal(n / 10);
      assert s[..|s| - 1] == ToDecimal(n / 10);
    }
  }

  /** A run of `'0'` characters, as in a zero-padded numeral. */
  predicate AllZeros(z: string)
  {
    forall i :: 0 <= i < |z| ==> z[i] == '0'
  }

  /** Leading zeros do not change the value of a digit string. */
  lemma {:induction false} LeadingZerosKeepValue(z: string, d: string)
    requires AllZeros(z) && AllDigits(d)
    ensures AllDigits(z + d)
    ensures DigitsValue(z + d) == DigitsValue(d)
    decreases |z| + |d|
  {
    var s := z + d;
    if |d| == 0 {
      assert s == z;
      if |z| > 0 {
        var shorter := z[..|z| - 1];
        assert shorter + d == shorter;
        LeadingZerosKeepValue(shorter, d);
        assert s[..|s| - 1] == shorter;
      }
    } else {
      assert s[..|s| - 1] == z + d[..|d| - 1];
      LeadingZerosKeepValue(z, d[..|d| - 1]);
    }
  }

  /** A zero-padded decimal rendering of `n` is a digit string worth `n`. */
  lemma PaddedDecimal(z: string, n: nat)
    requires AllZeros(z)
    ensures |z + ToDecimal(n)| > 0 && AllDigits(z + ToDecimal(n))
    ensures DigitsValue(z + ToDecimal(n)) == n
  {
    DigitsValueOfDecimal(n);
    LeadingZerosKeepValue(z, ToDecimal(n));
  }

  /** A non-empty digit string whose value does not exceed `max`. */
  function ParseUnsigned(s: string, max: nat): (r: Option<nat>)
    ensures r.Some? ==> r.value <= max && |s| > 0 && AllDigits(s)
  {
    if |s| > 0 && AllDigits(s) && DigitsValue(s) <= max then Some(DigitsValue(s)) else None
  }

  /** `ulong.TryParse(s, NumberStyles.None, CultureInfo.InvariantCulture, out v)`:
      ASCII digits only, at least one, no sign, no surrounding white space, and a
      value of at most 2^64 - 1; leading zeros are allowed. The trailing NUL
      characters .NET also accepts are not modelled. */
  function ParseULong(s: string): (r: Option<nat>)
    ensures r.Some? ==> r.value <= ULongMax && |s| > 0 && AllDigits(s)
    ensures r.Some? ==> r.value == DigitsValue(s)
    ensures |s| > 0 && AllDigits(s) && DigitsValue(s) <= ULongMax ==> r.Some?
  {
    ParseUnsigned(s, ULongMax)
  }

  /** A decimal id, zero-padded or not, reads back as itself exactly when it
      fits in 64 bits. */
  lemma ParseULongOfDecimal(z: string, n: nat)
    requires AllZeros(z)
    ensures ParseULong(z + ToDecimal(n)) == if n <= ULongMax then Some(n) else None
  {
    PaddedDecimal(z, n);
  }

  /** The string without its leading white space. */
  function TrimLeadingWhite(s: string): (t: string)
    ensures |t| <= |s| && t == s[|s| - |t|..]
    ensures |t| > 0 ==> !IsWhite(t[0])
  {
    if |s| > 0 && IsWhite(s[0]) then TrimLeadingWhite(s[1..]) else s
  }

  /** The string without its trailing white space. */
  function TrimTrailingWhite(s: string): (t: string)
    ensures |t| <= |s| && t == s[..|t|]
    ensures |t| > 0 ==> !IsWhite(t[|t| - 1])
  {
    if |s| > 0 && IsWhite(s[|s| - 1]) then TrimTrailingWhite(s[..|s| - 1]) else s
  }

  /** `ushort.TryParse(s, out v)` with the default `NumberStyles.Integer` and an
      invariant sign convention: `[ws][+|-]digits[ws]`. */
  function ParseUShort(s: string): (r: Option<nat>)
    ensures r.Some? ==> r.value <= UShortMax
  {
    ParseSignedUShort(TrimTrailingWhite(TrimLeadingWhite(s)))
  }

  /** `[+|-]digits` read as a `ushort`. A minus sign is accepted only in front
      of a zero value, since every other negative number is out of range. */
  function ParseSignedUShort(t: string): (r: Option<nat>)
    ensures r.Some? ==> r.value <= UShortMax
  {
    var negative := |t| > 0 && t[0] == '-';
    var body := if |t| > 0 && (t[0] == '+' || t[0] == '-') then t[1..] else t;
    match ParseUnsigned(body, UShortMax)
    case None => None
    case Some(v) => if negative && v != 0 then None else Some(v)
  }

  /** A sign in front of a digit string: the digits' value when it fits, and
      a minus sign only in front of zero. */
  lemma ParseSignedDigits(sign: string, d: string)
    requires sign == "" || sign == "+" || sign == "-"
    requires |d| > 0 && AllDigits(d)
    ensures ParseSignedUShort(sign + d)
              == if DigitsValue(d) > UShortMax || (sign == "-" && DigitsValue(d) != 0) then None
                 else Some(DigitsValue(d))
  {
    if sign == "" {
      assert sign + d == d;
      assert IsDigit(d[0]);
    } else {
      assert (sign + d)[1..] == d;
    }
  }

  /** Digits without a sign read as their value when it fits. */
  lemma UnsignedDigits(d: string)
    requires |d| > 0 && AllDigits(d)
    ensures ParseSignedUShort(d) == if DigitsValue(d) > UShortMax then None else Some(DigitsValue(d))
  {
    assert IsDigit(d[0]);
  }

  /** A signed, possibly zero-padded numeral reads as its value exactly when
      that value fits, and is not negative unless it is zero. */
  lemma ParseSignedUShortOfDecimal(n: nat, sign: string, z: string)
    requires sign == "" || sign == "+" || sign == "-"
    requires AllZeros(z)
    ensures ParseSignedUShort(sign + z + ToDecimal(n))
              == if n > UShortMax || (sign == "-" && n != 0) then None else Some(n)
  {
    PaddedDecimal(z, n);
    AppendAssociates(sign, z, ToDecimal(n));
    ParseSignedDigits(sign, z + ToDecimal(n));
  }

  lemma {:induction false} TrimLeadingPadding(w: string, x: string)
    requires AllWhite(w)
    requires |x| > 0 && !IsWhite(x[0])
    ensures TrimLeadingWhite(w + x) == x
  {
    if |w| > 0 {
      assert (w + x)[1..] == w[1..] + x;
      TrimLeadingPadding(w[1..], x);
    } else {
      assert w + x == x;
    }
  }

  lemma {:induction false} TrimTrailingPadding(x: string, w: string)
    requires AllWhite(w)
    requires |x| > 0 && !IsWhite(x[|x| - 1])
    ensures TrimTrailingWhite(x + w) == x
  {
    if |w| > 0 {
      assert (x + w)[..|x + w| - 1] == x + w[..|w| - 1];
      TrimTrailingPadding(x, w[..|w| - 1]);
    } else {
      assert x + w == x;
    }
  }

  lemma TrimPadded(w1: string, x: string, w2: string)
    requires AllWhite(w1) && AllWhite(w2)
    requires |x| > 0 && !IsWhite(x[0]) && !IsWhite(x[|x| - 1])
    ensures TrimTrailingWhite(TrimLeadingWhite(w1 + x + w2)) == x
  {
    assert w1 + x + w2 == w1 + (x + w2);
    TrimLeadingPadding(w1, x + w2);
    TrimTrailingPadding(x, w2);
  }

  /** A signed, possibly zero-padded numeral starts and ends with a character
      that is not white space. */
  lemma NumeralEnds(n: nat, sign: string, z: string)
    requires sign == "" || sign == "+" || sign == "-"
    requires AllZeros(z)
    ensures |sign + z + ToDecimal(n)| > 0
    ensures !IsWhite((sign + z + ToDecimal(n))[0])
    ensures !IsWhite((sign + z + ToDecimal(n))[|sign + z + ToDecimal(n)| - 1])
  {
    var d := ToDecimal(n);
    var x := sign + z + d;
    assert IsDigit(d[0]) && IsDigit(d[|d| - 1]);
    assert x[|x| - 1] == d[|d| - 1];
    assert x[0] == '+' || x[0] == '-' || x[0] == '0' || x[0] == d[0];
  }

  lemma AppendAssociates(a: string, b: string, c: string)
    ensures a + b + c == a + (b + c)
  {
  }

  /** Parsing a padded string is parsing what the trims leave. */
  lemma ParseUShortOfTrimmed(s: string, x: string)
    requires TrimTrailingWhite(TrimLeadingWhite(s)) == x
    ensures ParseUShort(s) == ParseSignedUShort(x)
  {
  }

  /** The discriminator parser on `[ws][sign][zeros]digits[ws]`: a value of
      `ushort` is read back whatever the surrounding white space, the leading
      zeros and a plus sign; zero is also read back with a minus sign; a value
      above 65535, or a negative value other than zero, is refused. */
  lemma ParseUShortOfIntegerStyle(n: nat, sign: string, z: string, w1: string, w2: string)
    requires sign == "" || sign == "+" || sign == "-"
    requires AllZeros(z)
    requires AllWhite(w1) && AllWhite(w2)
    ensures ParseUShort(w1 + sign + z + ToDecimal(n) + w2)
              == if n > UShortMax || (sign == "-" && n != 0) then None else Some(n)
  {
    var x := sign + z + ToDecimal(n);
    AppendAssociates(w1, sign, z);
    AppendAssociates(w1, sign + z, ToDecimal(n));
    NumeralEnds(n, sign, z);
    TrimPadded(w1, x, w2);
    ParseUShortOfTrimmed(w1 + x + w2, x);
    ParseSignedUShortOfDecimal(n, sign, z);
  }

  /** What the leading trim removes is white space. */
  lemma {:induction false} TrimLeadingDropsWhite(s: string)
    ensures AllWhite(s[..|s| - |TrimLeadingWhite(s)|])
  {
    if |s| > 0 && IsWhite(s[0]) {
      TrimLeadingDropsWhite(s[1..]);
      var n := |s| - |TrimLeadingWhite(s)|;
      assert s[..n] == [s[0]] + s[1..][..n - 1];
    }
  }

  /** What the trailing trim removes is white space. */
  lemma {:induction false} TrimTrailingDropsWhite(s: string)
    ensures AllWhite(s[|TrimTrailingWhite(s)|..])
  {
    if |s| > 0 && IsWhite(s[|s| - 1]) {
      var p := s[..|s| - 1];
      TrimTrailingDropsWhite(p);
      var n := |TrimTrailingWhite(s)|;
      assert s[n..] == p[n..] + [s[|s| - 1]];
    }
  }

  /** An accepted signed numeral is an optional sign followed by a non-empty
      run of digits, and reads as the digits' value. */
  lemma SignedUShortShape(t: string)
    requires ParseSignedUShort(t).Some?
    ensures var j := if |t| > 0 && (t[0] == '+' || t[0] == '-') then 1 else 0;
              j < |t| && AllDigits(t[j..]) && ParseSignedUShort(t) == Some(DigitsValue(t[j..]))
  {
    if |t| > 0 && (t[0] == '+' || t[0] == '-') {
      assert ParseUnsigned(t[1..], UShortMax).Some?;
    } else {
      assert t[0..] == t;
      assert ParseUnsigned(t, UShortMax).Some?;
    }
  }

  /** The trims keep a slice `s[i..k]`, with white space on either side of it. */
  lemma TrimBounds(s: string) returns (i: nat, k: nat)
    ensures i <= k <= |s| && AllWhite(s[..i]) && AllWhite(s[k..])
    ensures TrimTrailingWhite(TrimLeadingWhite(s)) == s[i..k]
  {
    var l := TrimLeadingWhite(s);
    var t := TrimTrailingWhite(l);
    i, k := |s| - |l|, |s| - |l| + |t|;
    TrimLeadingDropsWhite(s);
    TrimTrailingDropsWhite(l);
    assert l == s[i..];
    assert t == l[..|t|] == s[i..k];
    assert l[|t|..] == s[k..];
  }

  /** The converse of `ParseUShortOfIntegerStyle`: the discriminator parser
      accepts nothing but white space, an optional sign, a non-empty run of
      digits and white space again, and the result is the digits' value. */
  lemma ParseUShortOnlyIntegerStyle(s: string)
    requires ParseUShort(s).Some?
    ensures exists i, j, k :: 0 <= i <= j < k <= |s| && AllWhite(s[..i]) && AllWhite(s[k..])
              && (j == i || (j == i + 1 && (s[i] == '+' || s[i] == '-')))
              && AllDigits(s[j..k]) && ParseUShort(s) == Some(DigitsValue(s[j..k]))
  {
    var i, k := TrimBounds(s);
    var t := s[i..k];
    ParseUShortOfTrimmed(s, t);
    SignedUShortShape(t);
    var signed := |t| > 0 && (t[0] == '+' || t[0] == '-');
    var j := if signed then i + 1 else i;
    assert t[j - i..] == s[j..k];
    assert signed ==> s[i] == t[0];
    assert 0 <= i <= j < k <= |s| && AllWhite(s[..i]) && AllWhite(s[k..])
      && (j == i || (j == i + 1 && (s[i] == '+' || s[i] == '-')))
      && AllDigits(s[j..k]) && ParseUShort(s) == Some(DigitsValue(s[j..k]));
  }

  /** Text that is not a numeral is refused, whether it has no digit at all
      or a digit run followed by something else. */
  lemma NonNumeralTagsRefused()
    ensures ParseUShort("abc") == None
    ensures ParseUShort("12x") == None
  {
    var abc, tail := "abc", "12x";
    LeadingNotWhite(abc);
    TrailingNotWhite(abc);
    assert !IsDigit(abc[0]);
    LeadingNotWhite(tail);
    TrailingNotWhite(tail);
    assert !IsDigit(tail[2]);
  }

  /** Trimming leaves a digit string as it is. */
  lemma DigitsUntrimmed(d: string)
    requires |d| > 0 && AllDigits(d)
    ensures TrimTrailingWhite(TrimLeadingWhite(d)) == d
  {
    assert IsDigit(d[0]) && IsDigit(d[|d| - 1]);
    LeadingNotWhite(d);
    TrailingNotWhite(d);
  }

  lemma LeadingNotWhite(s: string)
    requires |s| > 0 && !IsWhite(s[0])
    ensures TrimLeadingWhite(s) == s
  {
  }

  lemma TrailingNotWhite(s: string)
    requires |s| > 0 && !IsWhite(s[|s| - 1])
    ensures TrimTrailingWhite(s) == s
  {
  }

  /** A bare, possibly zero-padded tag in range reads back as itself: the
      form in which Discord writes tags (`0001`). */
  lemma ParseUShortOfPadded(z: string, tag: nat)
    requires AllZeros(z)
    requires tag <= UShortMax
    ensures ParseUShort(z + ToDecimal(tag)) == Some(tag)
  {
    var d := z + ToDecimal(tag);
    PaddedDecimal(z, tag);
    DigitsUntrimmed(d);
    ParseUShortOfTrimmed(d, d);
    UnsignedDigits(d);
  }

  /** Discord.Net's `MentionUtils.TryParseUser`: `<@digits>` or `<@!digits>`,
      where the digits are read as by `ParseULong`. */
  function ParseMention(s: string): (r: Option<nat>)
    ensures r.Some? ==> r.value <= ULongMax
    ensures r.Some? ==> |s| >= 4 && s[0] == '<' && s[1] == '@' && s[|s| - 1] == '>'
    ensures r.Some? ==> var digits := if s[2] == '!' then s[3..|s| - 1] else s[2..|s| - 1];
              |digits| > 0 && AllDigits(digits) && r.value == DigitsValue(digits)
  {
    if |s| >= 3 && s[0] == '<' && s[1] == '@' && s[|s| - 1] == '>' then
      var body := if |s| >= 4 && s[2] == '!' then s[3..|s| - 1] else s[2..|s| - 1];
      ParseULong(body)
    else None
  }

  /** A mention reads its digits as a bare id, in both spellings. */
  lemma ParseMentionOfDigits(d: string)
    requires |d| > 0 && AllDigits(d)
    ensures ParseMention("<@" + d + ">") == ParseULong(d)
    ensures ParseMention("<@!" + d + ">") == ParseULong(d)
  {
    var plain := "<@" + d + ">";
    assert IsDigit(plain[2]);
    assert plain[2..|plain| - 1] == d;
    var bang := "<@!" + d + ">";
    assert bang[3..|bang| - 1] == d;
  }

  /** Both mention spellings of an id, zero-padded or not, read back as that id
      exactly when it fits in 64 bits. */
  lemma ParseMentionOfId(z: string, n: nat)
    requires AllZeros(z)
    ensures ParseMention("<@" + z + ToDecimal(n) + ">") == if n <= ULongMax then Some(n) else None
    ensures ParseMention("<@!" + z + ToDecimal(n) + ">") == if n <= ULongMax then Some(n) else None
  {
    PaddedDecimal(z, n);
    ParseULongOfDecimal(z, n);
    AppendAssociates("<@", z, ToDecimal(n));
    AppendAssociates("<@!", z, ToDecimal(n));
    ParseMentionOfDigits(z + ToDecimal(n));
  }
}
