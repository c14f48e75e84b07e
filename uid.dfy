/**
 * generateUID: a name followed by two random draws, each written as three
 * base-36 digits, and the circle ids the enter pass derives from it.
 */
module Uid {
  import opened JsValues

  /** 36 to the third: the draws range over the three-digit base-36 numbers. */
  const Range36: nat := 46656

  /** `(Math.random() * 46656) | 0`: the draw `u` in [0, 1) scaled, then truncated. */
  function Draw(u: real): (n: nat)
    requires 0.0 <= u < 1.0
    ensures n < Range36
    ensures n as real <= u * 46656.0 < n as real + 1.0
  {
    (u * 46656.0).Floor
  }

  function Digit36(d: nat): (c: char)
    requires d < 36
  {
    if d < 10 then ('0' as int + d) as char else ('a' as int + d - 10) as char
  }

  predicate IsDigit36(c: char)
  {
    '0' <= c <= '9' || 'a' <= c <= 'z'
  }

  function DigitValue36(c: char): (d: nat)
    requires IsDigit36(c)
    ensures d < 36 && Digit36(d) == c
  {
    if c <= '9' then c as int - '0' as int else c as int - 'a' as int + 10
  }

  /** `n.toString(36)`: base 36, lower-case letters, no leading zeros. */
  function ToBase36(n: nat): (s: string)
    ensures 1 <= |s| && forall i | 0 <= i < |s| :: IsDigit36(s[i])
    decreases n
  {
    if n < 36 then [Digit36(n)] else ToBase36(n / 36) + [Digit36(n % 36)]
  }

  /** The value of a string of base-36 digits, most significant first. */
  function ParseBase36(s: string): nat
    requires forall i | 0 <= i < |s| :: IsDigit36(s[i])
    decreases |s|
  {
    if s == [] then 0 else ParseBase36(s[..|s| - 1]) * 36 + DigitValue36(s[|s| - 1])
  }

  lemma {:induction false} ToBase36RoundTrip(n: nat)
    ensures ParseBase36(ToBase36(n)) == n
    decreases n
  {
    if n >= 36 {
      ToBase36RoundTrip(n / 36);
      var s := ToBase36(n);
      assert s[..|s| - 1] == ToBase36(n / 36);
    }
  }

  /** A number below 36 cubed needs at most three base-36 digits. */
  lemma ToBase36Short(n: nat)
    requires n < Range36
    ensures |ToBase36(n)| <= 3
  {
    if n >= 36 {
      var q := n / 36;
      assert q < 1296;
      assert |ToBase36(n)| == |ToBase36(q)| + 1;
      if q >= 36 {
        assert q / 36 < 36;
        assert |ToBase36(q)| == |ToBase36(q / 36)| + 1;
        assert |ToBase36(q / 36)| == 1;
      }
    }
  }

  /** Leading zeros do not change the value. */
  lemma {:induction false} LeadingZeros(z: string, s: string)
    requires forall i | 0 <= i < |z| :: z[i] == '0'
    requires forall i | 0 <= i < |s| :: IsDigit36(s[i])
    ensures ParseBase36(z + s) == ParseBase36(s)
    decreases |s|
  {
    if s == [] {
      assert z + s == z;
      ZerosAreZero(z);
    } else {
      assert (z + s)[..|z + s| - 1] == z + s[..|s| - 1];
      LeadingZeros(z, s[..|s| - 1]);
    }
  }

  lemma {:induction false} ZerosAreZero(z: string)
    requires forall i | 0 <= i < |z| :: z[i] == '0'
    ensures ParseBase36(z) == 0
    decreases |z|
  {
    if z != [] {
      ZerosAreZero(z[..|z| - 1]);
    }
  }

  /** `("000" + n.toString(36)).slice(-3)`: the last three characters. */
  function Pad3(n: nat): (s: string)
  {
    var t := "000" + ToBase36(n);
    t[|t| - 3..]
  }

  /** Padding keeps every draw: three digits that read back as the number. */
  lemma Pad3RoundTrip(n: nat)
    requires n < Range36
    ensures |Pad3(n)| == 3 && forall i | 0 <= i < 3 :: IsDigit36(Pad3(n)[i])
    ensures ParseBase36(Pad3(n)) == n
  {
    var b := ToBase36(n);
    ToBase36Short(n);
    var t := "000" + b;
    var z := "000"[|b|..];
    assert t[|t| - 3..] == z + b;
    LeadingZeros(z, b);
    ToBase36RoundTrip(n);
  }

  /** generateUID(name) with the two draws of `Math.random` as parameters. */
  function GenerateUid(name: string, u1: real, u2: real): (uid: string)
    requires 0.0 <= u1 < 1.0 && 0.0 <= u2 < 1.0
    ensures |uid| == |name| + 6 && uid[..|name|] == name
    ensures forall i | |name| <= i < |uid| :: IsDigit36(uid[i])
    ensures ParseBase36(uid[|name|..|name| + 3]) == Draw(u1)
    ensures ParseBase36(uid[|name| + 3..]) == Draw(u2)
  {
    Pad3RoundTrip(Draw(u1));
    Pad3RoundTrip(Draw(u2));
    var uid := name + Pad3(Draw(u1)) + Pad3(Draw(u2));
    assert uid[|name|..|name| + 3] == Pad3(Draw(u1));
    assert uid[|name| + 3..] == Pad3(Draw(u2));
    uid
  }

  /** Two generated ids of the same name are equal only when both draws are. */
  lemma UidsDifferWithDraws(name: string, u1: real, u2: real, v1: real, v2: real)
    requires 0.0 <= u1 < 1.0 && 0.0 <= u2 < 1.0 && 0.0 <= v1 < 1.0 && 0.0 <= v2 < 1.0
    ensures GenerateUid(name, u1, u2) == GenerateUid(name, v1, v2)
      <==> Draw(u1) == Draw(v1) && Draw(u2) == Draw(v2)
  {
    var a := GenerateUid(name, u1, u2);
    var b := GenerateUid(name, v1, v2);
    if Draw(u1) == Draw(v1) && Draw(u2) == Draw(v2) {
      assert a == name + Pad3(Draw(u1)) + Pad3(Draw(u2));
    }
    if a == b {
      assert a[|name|..|name| + 3] == b[|name|..|name| + 3];
      assert a[|name| + 3..] == b[|name| + 3..];
    }
  }

  /**
   * Reading a property of a string primitive: its `length`, one of its
   * characters by index, or else `undefined` (strings carry no `id` or `href`;
   * the methods of `String.prototype` are not modelled).
   */
  function StringProperty(s: string, key: string): (v: JsValue)
    ensures key == "length" ==> v == Num(|s|)
    ensures v.Str? ==> |v.s| == 1 && ParseDecimal(key) < |s| && v.s[0] == s[ParseDecimal(key)]
    ensures |key| > 0 && !IsDigit(key[0]) && key != "length" ==> v == Undefined
  {
    if key == "length" then Num(|s|)
    else if key == Decimal(ParseDecimal(key)) && ParseDecimal(key) < |s| then Str([s[ParseDecimal(key)]])
    else Undefined
  }

  /** The attribute d3 sets from a callback's value: none for `undefined` or `null`. */
  function AttributeOf(v: JsValue): (a: Option<string>)
    ensures a.None? <==> v == Undefined || v == Null
  {
    if v == Undefined || v == Null then None else Some(ToJsString(v))
  }

  /** The `id` the enter pass gives a new circle as written: the `id` of the returned string. */
  function CircleIdAsWritten(u1: real, u2: real): Option<string>
    requires 0.0 <= u1 < 1.0 && 0.0 <= u2 < 1.0
  {
    AttributeOf(StringProperty(GenerateUid("leaf", u1, u2), "id"))
  }

  /** As written no circle gets an id, so circles with different draws are not told apart. */
  lemma CircleIdsCollideAsWritten(u1: real, u2: real, v1: real, v2: real)
    requires 0.0 <= u1 < 1.0 && 0.0 <= u2 < 1.0 && 0.0 <= v1 < 1.0 && 0.0 <= v2 < 1.0
    ensures CircleIdAsWritten(u1, u2) == None
    ensures CircleIdAsWritten(u1, u2) == CircleIdAsWritten(v1, v2)
  {
    assert !IsDigit("id"[0]);
  }

  /** The id the enter pass evidently means: the generated uid itself. */
  function CircleId(u1: real, u2: real): (id: Option<string>)
    requires 0.0 <= u1 < 1.0 && 0.0 <= u2 < 1.0
    ensures id.Some? && |id.value| == 10 && id.value[..4] == "leaf"
  {
    Some(GenerateUid("leaf", u1, u2))
  }

  /** With the uid as id, circles whose draws differ get different ids. */
  lemma CircleIdsDistinct(u1: real, u2: real, v1: real, v2: real)
    requires 0.0 <= u1 < 1.0 && 0.0 <= u2 < 1.0 && 0.0 <= v1 < 1.0 && 0.0 <= v2 < 1.0
    requires Draw(u1) != Draw(v1) || Draw(u2) != Draw(v2)
    ensures CircleId(u1, u2) != CircleId(v1, v2)
  {
    UidsDifferWithDraws("leaf", u1, u2, v1, v2);
  }

  /** The documented example: draws 0 and just under 1 give "000" and "zzz". */
  lemma UidExample()
    ensures Draw(0.0) == 0 && Pad3(0) == "000"
    ensures Pad3(Range36 - 1) == "zzz"
  {
    assert ToBase36(0) == "0";
    assert ToBase36(35) == "z";
    assert ToBase36(1295) == ToBase36(35) + "z";
    assert ToBase36(Range36 - 1) == ToBase36(1295) + "z";
  }
}
