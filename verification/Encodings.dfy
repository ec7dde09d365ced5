/** Bytes as text: lower-case hexadecimal, and base64 (sections 8 and 4 of RFC 4648). */
module Encodings {
  import opened Wrappers

  type byte = n: int | 0 <= n < 256

  // ------------------------------------------------------------------------------ hexadecimal

  function HexDigit(n: nat): char
    requires n < 16
  {
    if n < 10 then (n + '0' as int) as char else (n - 10 + 'a' as int) as char
  }

  /** The value of a digit of either case. */
  function HexValue(c: char): Option<nat> {
    if '0' <= c <= '9' then Some(c as int - '0' as int)
    else if 'a' <= c <= 'f' then Some(c as int - 'a' as int + 10)
    else if 'A' <= c <= 'F' then Some(c as int - 'A' as int + 10)
    else None
  }

  function ToHex(bytes: seq<byte>): string {
    if bytes == [] then "" else [HexDigit(bytes[0] / 16), HexDigit(bytes[0] % 16)] + ToHex(bytes[1..])
  }

  predicate IsAsciiSpace(c: char) {
    c in {' ', '\t', '\n', '\r', '\U{0B}', '\U{0C}'}
  }

  /** The lenient reading of `bytes.fromhex`: either case, and white space between bytes. */
  function FromHex(s: string): Option<seq<byte>> {
    if s == "" then Some([])
    else if IsAsciiSpace(s[0]) then FromHex(s[1..])
    else if |s| < 2 then None
    else
      var high, low, rest := HexValue(s[0]), HexValue(s[1]), FromHex(s[2..]);
      if high.Some? && low.Some? && rest.Some? && high.value < 16 && low.value < 16
      then Some([high.value * 16 + low.value] + rest.value)
      else None
  }

  /** Hexadecimal is written in two digits for each byte, none of them an upper-case letter. */
  lemma {:induction false} HexIsLower(bytes: seq<byte>)
    ensures |ToHex(bytes)| == 2 * |bytes|
    ensures forall i :: 0 <= i < |ToHex(bytes)| ==> '0' <= ToHex(bytes)[i] <= '9' || 'a' <= ToHex(bytes)[i] <= 'f'
  {
    if bytes != [] {
      HexIsLower(bytes[1..]);
    }
  }

  lemma {:induction false} HexReadsBack(bytes: seq<byte>)
    ensures FromHex(ToHex(bytes)) == Some(bytes)
  {
    if bytes != [] {
      HexReadsBack(bytes[1..]);
      assert bytes == [bytes[0]] + bytes[1..];
    }
  }

  lemma TwoDigitsThenRest(a: char, b: char, rest: string, n: byte, bytes: seq<byte>)
    requires !IsAsciiSpace(a) && HexValue(a) == Some(n / 16) && HexValue(b) == Some(n % 16) && FromHex(rest) == Some(bytes)
    ensures FromHex([a, b] + rest) == Some([n] + bytes)
  {
    assert ([a, b] + rest)[2..] == rest;
  }

  /** Reading takes digits of either case, and white space between two bytes, all of which the re-encode check refuses. */
  lemma HexHasOtherSpellings()
    ensures FromHex("AF 9a") == FromHex("af9A") == Some([175, 154]) && ToHex([175, 154]) == "af9a"
  {
    TwoDigitsThenRest('9', 'a', "", 154, []);
    TwoDigitsThenRest('9', 'A', "", 154, []);
    assert ['9', 'a'] + "" == "9a" && ['9', 'A'] + "" == "9A" && " 9a"[1..] == "9a";
    assert [154] + [] == [154] && FromHex("9a") == Some([154]) && FromHex("9A") == Some([154]);
    assert FromHex(" 9a") == FromHex(" 9a"[1..]);
    TwoDigitsThenRest('A', 'F', " 9a", 175, [154]);
    TwoDigitsThenRest('a', 'f', "9A", 175, [154]);
    assert ['A', 'F'] + " 9a" == "AF 9a" && ['a', 'f'] + "9A" == "af9A";
    assert [175] + [154] == [175, 154];
    assert [175, 154][1..] == [154] && [154][1..] == [];
    assert ToHex([154]) == "9a" && ToHex([175, 154]) == "af" + "9a";
  }

  // ----------------------------------------------------------------------------------- base64

  function Symbol(n: nat): char
    requires n < 64
  {
    if n < 26 then (n + 'A' as int) as char
    else if n < 52 then (n - 26 + 'a' as int) as char
    else if n < 62 then (n - 52 + '0' as int) as char
    else if n == 62 then '+'
    else '/'
  }

  function SymbolValue(c: char): (n: Option<nat>)
    ensures n.Some? ==> n.value < 64
  {
    if 'A' <= c <= 'Z' then Some(c as int - 'A' as int)
    else if 'a' <= c <= 'z' then Some(c as int - 'a' as int + 26)
    else if '0' <= c <= '9' then Some(c as int - '0' as int + 52)
    else if c == '+' then Some(62)
    else if c == '/' then Some(63)
    else None
  }

  lemma SymbolReadsBack(n: nat)
    requires n < 64
    ensures SymbolValue(Symbol(n)) == Some(n) && Symbol(n) != '='
  {
  }

  /** Three bytes as four symbols. */
  function Group(a: byte, b: byte, c: byte): string {
    [Symbol(a / 4), Symbol(a % 4 * 16 + b / 16), Symbol(b % 16 * 4 + c / 64), Symbol(c % 64)]
  }

  function ToBase64(bytes: seq<byte>): string {
    if |bytes| == 0 then ""
    else if |bytes| == 1 then Group(bytes[0], 0, 0)[..2] + "=="
    else if |bytes| == 2 then Group(bytes[0], bytes[1], 0)[..3] + "="
    else Group(bytes[0], bytes[1], bytes[2]) + ToBase64(bytes[3..])
  }

  /** The reading of base64 that ignores the bits that the last group has too many. */
  function FromBase64(s: string): Option<seq<byte>> {
    if s == "" then Some([])
    else if |s| < 4 then None
    else
      var a, b, c, d := SymbolValue(s[0]), SymbolValue(s[1]), SymbolValue(s[2]), SymbolValue(s[3]);
      if a.None? || b.None? then None
      else if |s| == 4 && s[2..] == "==" then Some([a.value * 4 + b.value / 16])
      else if c.None? then None
      else if |s| == 4 && s[3] == '=' then Some([a.value * 4 + b.value / 16, b.value % 16 * 16 + c.value / 4])
      else
        var rest := FromBase64(s[4..]);
        if d.None? || rest.None? then None
        else Some([a.value * 4 + b.value / 16, b.value % 16 * 16 + c.value / 4, c.value % 4 * 64 + d.value] + rest.value)
  }

  lemma GroupReadsBack(a: byte, b: byte, c: byte)
    ensures var g := Group(a, b, c);
            var w, x, y, z := SymbolValue(g[0]), SymbolValue(g[1]), SymbolValue(g[2]), SymbolValue(g[3]);
            && w.Some? && x.Some? && y.Some? && z.Some? && g[2] != '=' && g[3] != '='
            && w.value * 4 + x.value / 16 == a
            && x.value % 16 * 16 + y.value / 4 == b
            && y.value % 4 * 64 + z.value == c
  {
    SymbolReadsBack(a / 4);
    SymbolReadsBack(a % 4 * 16 + b / 16);
    SymbolReadsBack(b % 16 * 4 + c / 64);
    SymbolReadsBack(c % 64);
    assert (a % 4 * 16 + b / 16) / 16 == a % 4 && (a % 4 * 16 + b / 16) % 16 == b / 16;
    assert (b % 16 * 4 + c / 64) / 4 == b % 16 && (b % 16 * 4 + c / 64) % 4 == c / 64;
  }

  lemma TwoBytesReadBack(a: byte, b: byte)
    ensures FromBase64(ToBase64([a, b])) == Some([a, b])
  {
    GroupReadsBack(a, b, 0);
    var s, g := ToBase64([a, b]), Group(a, b, 0);
    assert s[0] == g[0] && s[1] == g[1] && s[2] == g[2] && s[3] == '=';
    assert s[2..][0] != "=="[0];
  }

  lemma FirstGroup(bytes: seq<byte>)
    requires |bytes| > 2
    ensures ToBase64(bytes) == Group(bytes[0], bytes[1], bytes[2]) + ToBase64(bytes[3..])
  {
  }

  lemma ThreeAndRest(bytes: seq<byte>)
    requires |bytes| > 2
    ensures bytes == [bytes[0], bytes[1], bytes[2]] + bytes[3..]
  {
  }

  lemma GroupThenRest(a: byte, b: byte, c: byte, rest: string, bytes: seq<byte>)
    requires FromBase64(rest) == Some(bytes)
    ensures FromBase64(Group(a, b, c) + rest) == Some([a, b, c] + bytes)
  {
    GroupReadsBack(a, b, c);
    var s, g := Group(a, b, c) + rest, Group(a, b, c);
    assert s[0] == g[0] && s[1] == g[1] && s[2] == g[2] && s[3] == g[3] && s[4..] == rest;
    assert s[2..][0] != "=="[0];
  }

  lemma {:induction false} Base64ReadsBack(bytes: seq<byte>)
    ensures FromBase64(ToBase64(bytes)) == Some(bytes)
  {
    if |bytes| == 1 {
      assert bytes == [bytes[0]];
    } else if |bytes| == 2 {
      TwoBytesReadBack(bytes[0], bytes[1]);
      assert bytes == [bytes[0], bytes[1]];
    } else if |bytes| > 2 {
      FirstGroup(bytes);
      ThreeAndRest(bytes);
      Base64ReadsBack(bytes[3..]);
      GroupThenRest(bytes[0], bytes[1], bytes[2], ToBase64(bytes[3..]), bytes[3..]);
    }
  }

  /** Two spellings of one byte: which is why reading alone does not make an encoding canonical. */
  lemma Base64HasTwoSpellings()
    ensures FromBase64("QQ==") == FromBase64("QR==") == Some([65]) && ToBase64([65]) == "QQ=="
    ensures ToBase64([65, 65]) == "QUE="
  {
    assert "QQ=="[2..] == "==" && "QR=="[2..] == "==";
    assert Group(65, 0, 0)[..2] == "QQ" && Group(65, 65, 0)[..3] == "QUE";
  }
}
