/** Python's strict UTF-8 codec: section 3 of RFC 3629. */
module Utf8 {
  import opened Prelude

  function Tail(n: nat): Byte {
    128 + n % 64
  }

  function EncodeChar(c: char): (r: Bytes)
    ensures 1 <= |r| <= 4
  {
    var n := c as int;
    if n < 0x80 then [n]
    else if n < 0x800 then [0xC0 + n / 64, Tail(n)]
    else if n < 0x10000 then [0xE0 + n / 4096, Tail(n / 64), Tail(n)]
    else [0xF0 + n / 262144, Tail(n / 4096), Tail(n / 64), Tail(n)]
  }

  function Encode(s: string): Bytes {
    if s == "" then [] else EncodeChar(s[0]) + Encode(s[1..])
  }

  predicate IsTail(b: Byte) {
    128 <= b < 192
  }

  /** The length a lead byte announces, zero when none may start with it. */
  function Width(lead: Byte): (w: nat)
    ensures w <= 4
  {
    if lead < 0x80 then 1
    else if 0xC0 <= lead < 0xE0 then 2
    else if 0xE0 <= lead < 0xF0 then 3
    else if 0xF0 <= lead < 0xF8 then 4
    else 0
  }

  /** The bits a byte carries past its marker. */
  function Bits(b: Byte, marker: int): int {
    b as int - marker
  }

  function Payload(data: Bytes): int
    requires data != [] && |data| == Width(data[0])
    requires forall i :: 1 <= i < |data| ==> IsTail(data[i])
  {
    match |data|
    case 1 => data[0]
    case 2 => Bits(data[0], 0xC0) * 64 + Bits(data[1], 128)
    case 3 => Bits(data[0], 0xE0) * 4096 + Bits(data[1], 128) * 64 + Bits(data[2], 128)
    case _ => Bits(data[0], 0xF0) * 262144 + Bits(data[1], 128) * 4096 + Bits(data[2], 128) * 64 + Bits(data[3], 128)
  }

  /** The code point is a scalar value and no shorter form would do. */
  predicate Shortest(n: int, width: nat) {
    && (0 <= n < 0xD800 || 0xE000 <= n < 0x110000)
    && n >= (if width == 2 then 0x80 else if width == 3 then 0x800 else if width == 4 then 0x10000 else 0)
  }

  /** One character and the bytes after it. */
  function DecodeChar(data: Bytes): (r: Result<(char, nat)>)
    requires data != []
    ensures r.Ok? ==> 1 <= r.value.1 <= |data|
    ensures r.Err? ==> r.error == ValueError
  {
    var w := Width(data[0]);
    if w == 0 || w > |data| || exists i :: 1 <= i < w && !IsTail(data[i]) then Err(ValueError)
    else
      var n := Payload(data[..w]);
      if Shortest(n, w) then Ok((n as char, w)) else Err(ValueError)
  }

  function Decode(data: Bytes): (r: Result<string>)
    ensures r.Err? ==> r.error == ValueError
  {
    if data == [] then Ok("")
    else
      var (c, w) :- DecodeChar(data);
      var rest :- Decode(data[w..]);
      Ok([c] + rest)
  }

  lemma CharPayload(c: char)
    ensures var (n, e) := (c as int, EncodeChar(c));
      && Width(e[0]) == |e| && (forall i :: 1 <= i < |e| ==> IsTail(e[i]))
      && Payload(e) == n && Shortest(n, |e|)
  {
    var n := c as int;
    assert n / 64 == 64 * (n / 4096) + n / 64 % 64;
    assert n / 4096 == 64 * (n / 262144) + n / 4096 % 64;
  }

  lemma CharRoundTrip(c: char, rest: Bytes)
    ensures DecodeChar(EncodeChar(c) + rest) == Ok((c, |EncodeChar(c)|))
  {
    var (n, e) := (c as int, EncodeChar(c));
    assert (e + rest)[..|e|] == e;
    CharPayload(c);
    hide EncodeChar, Payload;
    assert (e + rest)[0] == e[0];
    forall i | 1 <= i < |e|
      ensures IsTail((e + rest)[i])
    {
      assert (e + rest)[i] == e[i];
    }
  }

  lemma {:induction false} RoundTrip(s: string)
    ensures Decode(Encode(s)) == Ok(s)
  {
    if s != "" {
      var (e, rest) := (EncodeChar(s[0]), Encode(s[1..]));
      CharRoundTrip(s[0], rest);
      RoundTrip(s[1..]);
      assert (e + rest)[|e|..] == rest;
      assert s == [s[0]] + s[1..];
    }
  }

  lemma CharCanonical(data: Bytes)
    requires data != [] && DecodeChar(data).Ok?
    ensures var (c, w) := DecodeChar(data).value; data[..w] == EncodeChar(c)
  {
    var (c, w) := DecodeChar(data).value;
    var n := Payload(data[..w]);
    assert c as int == n;
    if w == 2 {
      Digits64(0, 0, Bits(data[0], 0xC0), Bits(data[1], 128));
    } else if w == 3 {
      Digits64(0, Bits(data[0], 0xE0), Bits(data[1], 128), Bits(data[2], 128));
    } else if w == 4 {
      Digits64(Bits(data[0], 0xF0), Bits(data[1], 128), Bits(data[2], 128), Bits(data[3], 128));
    }
  }

  lemma Digits64(a: nat, b: nat, c: nat, d: nat)
    requires b < 64 && c < 64 && d < 64
    ensures var n := a * 262144 + b * 4096 + c * 64 + d;
      && n / 262144 == a && n / 4096 == a * 64 + b && n / 64 == a * 4096 + b * 64 + c
      && n / 4096 % 64 == b && n / 64 % 64 == c && n % 64 == d
  {
  }

  /** Bytes decode to a string exactly when they are its encoding. */
  lemma {:induction false} DecodeIff(data: Bytes, s: string)
    ensures Decode(data) == Ok(s) <==> data == Encode(s)
  {
    RoundTrip(s);
    if data != [] && Decode(data) == Ok(s) {
      var (c, w) := DecodeChar(data).value;
      CharCanonical(data);
      assert s == [c] + s[1..];
      DecodeIff(data[w..], s[1..]);
      assert data == data[..w] + data[w..];
    }
  }
}
