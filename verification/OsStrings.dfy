/**
 OS strings on the wire (`WireOsString` of crates/outboard-protocol/src/lib.rs), on Unix:
 a well-formed UTF-8 string travels as its scalar values, anything else as its bytes.
*/
module OsStrings {
  import opened Common
  import opened Protocol

  type OsString = seq<Byte>

  // ---------- UTF-8, section 4 of RFC 3629 ----------

  predicate Tail(b: Byte) {
    0x80 <= b <= 0xBF
  }

  /** The UTF8-1 to UTF8-4 productions: how many bytes of `s` form its first character, if any. */
  function FirstLength(s: OsString): (n: nat)
    ensures n <= 4 && n <= |s|
  {
    if |s| >= 1 && s[0] <= 0x7F then 1
    else if |s| >= 2 && 0xC2 <= s[0] <= 0xDF && Tail(s[1]) then 2
    else if |s| >= 3 && Tail(s[2]) &&
            (|| (s[0] == 0xE0 && 0xA0 <= s[1] <= 0xBF)
             || (0xE1 <= s[0] <= 0xEC && Tail(s[1]))
             || (s[0] == 0xED && 0x80 <= s[1] <= 0x9F)
             || (0xEE <= s[0] <= 0xEF && Tail(s[1]))) then 3
    else if |s| >= 4 && Tail(s[2]) && Tail(s[3]) &&
            (|| (s[0] == 0xF0 && 0x90 <= s[1] <= 0xBF)
             || (0xF1 <= s[0] <= 0xF3 && Tail(s[1]))
             || (s[0] == 0xF4 && 0x80 <= s[1] <= 0x8F)) then 4
    else 0
  }

  /** UTF8-octets: a sequence of characters. */
  predicate WellFormed(s: OsString)
    decreases |s|
  {
    s == [] || (FirstLength(s) > 0 && WellFormed(s[FirstLength(s)..]))
  }

  predicate IsScalar(c: nat) {
    c <= 0xD7FF || 0xE000 <= c <= 0x10FFFF
  }

  /** Section 3: the bits of a character, six to a tail byte. */
  function EncodeScalar(c: nat): (s: OsString)
    requires IsScalar(c)
  {
    var c1 := c / 0x40;
    var c2 := c1 / 0x40;
    if c <= 0x7F then [c]
    else if c <= 0x7FF then [0xC0 + c1, 0x80 + c % 0x40]
    else if c <= 0xFFFF then [0xE0 + c2, 0x80 + c1 % 0x40, 0x80 + c % 0x40]
    else [0xF0 + c2 / 0x40, 0x80 + c2 % 0x40, 0x80 + c1 % 0x40, 0x80 + c % 0x40]
  }

  function Bits(b: Byte): nat
    requires b >= 0x80
  {
    b - 0x80
  }

  function DecodeFirst(s: OsString): (c: nat)
    requires FirstLength(s) > 0
  {
    match FirstLength(s)
    case 1 => s[0] as nat
    case 2 => Join(s[0] as nat - 0xC0, Bits(s[1]))
    case 3 => Join(Join(s[0] as nat - 0xE0, Bits(s[1])), Bits(s[2]))
    case _ => Join(Join(Join(s[0] as nat - 0xF0, Bits(s[1])), Bits(s[2])), Bits(s[3]))
  }

  /** Appending six bits, and taking them off again. */
  function Join(high: nat, low: nat): (c: nat)
    ensures low < 0x40 ==> c / 0x40 == high && c % 0x40 == low
  {
    high * 0x40 + low
  }

  lemma {:induction false} FirstRoundTrip(s: OsString)
    requires FirstLength(s) > 0
    ensures IsScalar(DecodeFirst(s))
    ensures EncodeScalar(DecodeFirst(s)) == s[..FirstLength(s)]
  {
    match FirstLength(s)
    case 1 =>
    case 2 =>
    case 3 => FirstOfThree(s);
    case _ => FirstOfFour(s);
  }

  lemma {:induction false} FirstOfThree(s: OsString)
    requires FirstLength(s) == 3
    ensures IsScalar(DecodeFirst(s)) && EncodeScalar(DecodeFirst(s)) == s[..3]
  {
    var a, b := s[0] as nat - 0xE0, Join(s[0] as nat - 0xE0, Bits(s[1]));
    assert b / 0x40 == a && b % 0x40 == Bits(s[1]);
    assert 0x20 <= b <= 0x3FF && !(0x360 <= b <= 0x37F);
  }

  lemma {:induction false} FirstOfFour(s: OsString)
    requires FirstLength(s) == 4
    ensures IsScalar(DecodeFirst(s)) && EncodeScalar(DecodeFirst(s)) == s[..4]
  {
    var a := Join(s[0] as nat - 0xF0, Bits(s[1]));
    var b := Join(a, Bits(s[2]));
    assert 0x10 <= a <= 0x10F;
    assert a / 0x40 == s[0] as nat - 0xF0 && a % 0x40 == Bits(s[1]);
    assert b / 0x40 == a && b % 0x40 == Bits(s[2]);
  }

  /** Encoding a scalar value yields one character of the grammar, whatever follows it. */
  lemma {:induction false} ScalarRoundTrip(c: nat, rest: OsString)
    requires IsScalar(c)
    ensures var s := EncodeScalar(c) + rest;
      && FirstLength(s) == |EncodeScalar(c)| && DecodeFirst(s) == c && s[FirstLength(s)..] == rest
  {
    var s := EncodeScalar(c) + rest;
    var c1 := c / 0x40;
    var c2 := c1 / 0x40;
    assert c == Join(c1, c % 0x40) && c1 == Join(c2, c1 % 0x40) && c2 == Join(c2 / 0x40, c2 % 0x40);
    if c <= 0x7FF {
    } else if c <= 0xFFFF {
      assert s[0] == 0xE0 + c2 && s[1] == 0x80 + c1 % 0x40 && s[2] == 0x80 + c % 0x40;
      assert c2 == 0 ==> c1 % 0x40 >= 0x20;
      assert c2 == 0xD ==> c1 % 0x40 <= 0x1F;
    } else {
      assert s[0] == 0xF0 + c2 / 0x40 && s[1] == 0x80 + c2 % 0x40;
      assert s[2] == 0x80 + c1 % 0x40 && s[3] == 0x80 + c % 0x40;
      assert c2 / 0x40 == 0 ==> c2 % 0x40 >= 0x10;
      assert c2 / 0x40 == 4 ==> c2 % 0x40 <= 0xF;
    }
  }

  /** `OsStr::to_str`, as scalar values. */
  function ToStr(s: OsString): Option<seq<nat>>
    decreases |s|
  {
    if s == [] then Some([])
    else if FirstLength(s) == 0 then None
    else
      var tail := ToStr(s[FirstLength(s)..]);
      if tail.None? then None else Some([DecodeFirst(s)] + tail.value)
  }

  predicate AllScalars(cs: seq<nat>) {
    forall i :: 0 <= i < |cs| ==> IsScalar(cs[i])
  }

  /** The bytes of a string. */
  function FromStr(cs: seq<nat>): OsString
    requires AllScalars(cs)
  {
    if cs == [] then [] else EncodeScalar(cs[0]) + FromStr(cs[1..])
  }

  lemma {:induction false} ToStrRoundTrip(s: OsString)
    ensures ToStr(s).Some? <==> WellFormed(s)
    ensures ToStr(s).Some? ==> AllScalars(ToStr(s).value) && FromStr(ToStr(s).value) == s
    decreases |s|
  {
    if s != [] && FirstLength(s) > 0 {
      var n := FirstLength(s);
      ToStrRoundTrip(s[n..]);
      FirstRoundTrip(s);
      if ToStr(s).Some? {
        assert ToStr(s).value[1..] == ToStr(s[n..]).value;
        assert s == s[..n] + s[n..];
      }
    }
  }

  lemma {:induction false} FromStrRoundTrip(cs: seq<nat>)
    requires AllScalars(cs)
    ensures WellFormed(FromStr(cs)) && ToStr(FromStr(cs)) == Some(cs)
  {
    if cs != [] {
      FromStrRoundTrip(cs[1..]);
      ScalarRoundTrip(cs[0], FromStr(cs[1..]));
      assert cs == [cs[0]] + cs[1..];
    }
  }

  // ---------- WireOsString ----------

  datatype WireStringError = PlatformMismatch(platform: string)

  function FromOs(s: OsString): WireOsString {
    match ToStr(s)
    case Some(cs) => Utf8(cs)
    case None => Unix(s)
  }

  predicate ValidWire(w: WireOsString) {
    w.Utf8? ==> AllScalars(w.scalars)
  }

  function IntoOs(w: WireOsString): Result<OsString, WireStringError>
    requires ValidWire(w)
  {
    match w
    case Utf8(cs) => Ok(FromStr(cs))
    case Unix(bytes) => Ok(bytes)
    case Windows(_) => Err(PlatformMismatch("windows"))
  }

  /** Any Unix string survives the wire, in its UTF-8 form exactly when it is well-formed UTF-8. */
  lemma {:induction false} OsRoundTrip(s: OsString)
    ensures ValidWire(FromOs(s)) && IntoOs(FromOs(s)) == Ok(s)
    ensures FromOs(s).Utf8? <==> WellFormed(s)
    ensures FromOs(s).Unix? <==> !WellFormed(s)
  {
    ToStrRoundTrip(s);
  }

  /** The client's conversion of its arguments. */
  function WireArgs(args: seq<OsString>): seq<WireOsString> {
    seq(|args|, i requires 0 <= i < |args| => FromOs(args[i]))
  }

  /** `InvokeRequest::args_os`: stops at the first argument of another platform. */
  method ArgsOs(args: seq<WireOsString>) returns (r: Result<seq<OsString>, WireStringError>)
    requires forall i :: 0 <= i < |args| ==> ValidWire(args[i])
    ensures r.Ok? <==> forall i :: 0 <= i < |args| ==> !args[i].Windows?
    ensures r.Ok? ==> |r.value| == |args| && forall i :: 0 <= i < |args| ==> IntoOs(args[i]) == Ok(r.value[i])
    ensures r.Err? ==> r.error == PlatformMismatch("windows")
  {
    var out := [];
    for i := 0 to |args|
      invariant |out| == i
      invariant forall j :: 0 <= j < i ==> IntoOs(args[j]) == Ok(out[j])
    {
      match IntoOs(args[i]) {
        case Err(error) => return Err(error);
        case Ok(s) => out := out + [s];
      }
    }
    r := Ok(out);
  }

  /** Arguments written by the client come back in order, byte for byte. */
  method SendArgs(args: seq<OsString>) returns (r: Result<seq<OsString>, WireStringError>)
    ensures r == Ok(args)
  {
    forall i | 0 <= i < |args| ensures ValidWire(WireArgs(args)[i]) && IntoOs(WireArgs(args)[i]) == Ok(args[i]) {
      OsRoundTrip(args[i]);
    }
    r := ArgsOs(WireArgs(args));
    assert r.value == args;
  }
}
