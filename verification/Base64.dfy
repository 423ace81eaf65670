/** The URL-safe base64 of section 5 of RFC 4648, as the cursor codec uses it: without padding (pagination.py). */
module Base64 {
  import opened Wrappers

  type Byte = b: int | 0 <= b < 256

  /** The alphabet of Table 2 of RFC 4648. */
  function Symbol(v: int): char
    requires 0 <= v < 64
  {
    if v < 26 then ('A' as int + v) as char
    else if v < 52 then ('a' as int + v - 26) as char
    else if v < 62 then ('0' as int + v - 52) as char
    else if v == 62 then '-'
    else '_'
  }

  /** Table 2, written out. */
  lemma Alphabet(v: int)
    requires 0 <= v < 64
    ensures Symbol(v) == "ABCDEFGHIJKLMNOPQRSTUVWXYZabcdefghijklmnopqrstuvwxyz0123456789-_"[v]
  {
    assert forall i | 0 <= i < 26 :: "ABCDEFGHIJKLMNOPQRSTUVWXYZ"[i] == ('A' as int + i) as char;
  }

  /** The decoder reads both alphabets and, below, skips every other character. */
  function SymbolValue(c: char): (r: Option<int>)
    ensures r.Some? ==> 0 <= r.value < 64
  {
    if 'A' <= c <= 'Z' then Some(c as int - 'A' as int)
    else if 'a' <= c <= 'z' then Some(c as int - 'a' as int + 26)
    else if '0' <= c <= '9' then Some(c as int - '0' as int + 52)
    else if c == '-' || c == '+' then Some(62)
    else if c == '_' || c == '/' then Some(63)
    else None
  }

  function Group(a: Byte, b: Byte, c: Byte): string {
    [Symbol(a / 4), Symbol(a % 4 * 16 + b / 16), Symbol(b % 16 * 4 + c / 64), Symbol(c % 64)]
  }

  /** urlsafe_b64encode. */
  function Encoded(bytes: seq<Byte>): string {
    if bytes == [] then ""
    else if |bytes| == 1 then Group(bytes[0], 0, 0)[..2] + "=="
    else if |bytes| == 2 then Group(bytes[0], bytes[1], 0)[..3] + "="
    else Group(bytes[0], bytes[1], bytes[2]) + Encoded(bytes[3..])
  }

  /** A group is its 24 bits as a number, written in four symbols to the base 64. */
  lemma GroupIsBigEndian(a: Byte, b: Byte, c: Byte) returns (v: seq<int>)
    ensures |v| == 4 && forall i | 0 <= i < 4 :: 0 <= v[i] < 64
    ensures Group(a, b, c) == [Symbol(v[0]), Symbol(v[1]), Symbol(v[2]), Symbol(v[3])]
    ensures 65536 * a + 256 * b + c == 262144 * v[0] + 4096 * v[1] + 64 * v[2] + v[3]
  {
    hide Symbol;
    v := [a / 4, a % 4 * 16 + b / 16, b % 16 * 4 + c / 64, c % 64];
  }

  /** The test vectors of section 10 of RFC 4648. */
  lemma Vectors()
    ensures Encoded([102]) == "Zg==" && Encoded([102, 111]) == "Zm8=" && Encoded([102, 111, 111]) == "Zm9v"
  {
    assert [102, 111, 111][3..] == [];
  }

  /** str.rstrip("="). */
  function Stripped(text: string): string {
    if text != "" && text[|text| - 1] == '=' then Stripped(text[..|text| - 1]) else text
  }

  function Pad(n: nat): string {
    if n == 0 then "" else Pad(n - 1) + "="
  }

  /** The padding decode_cursor puts back: "=" * (-len(token) % 4). */
  function Repadded(token: string): string {
    token + Pad((-|token|) % 4)
  }

  /**
   * The non-strict decoding loop of urlsafe_b64decode: position in the group, the bits left over from the last
   * symbol, and the pads seen.
   */
  function Scan(text: string, position: nat, left: int, pads: nat): Option<seq<Byte>>
    requires position < 4
    requires (position == 0 ==> left == 0) && (position == 1 ==> 0 <= left < 64)
    requires (position == 2 ==> 0 <= left < 16) && (position == 3 ==> 0 <= left < 4)
    decreases |text|
  {
    if text == "" then
      if position == 0 then Some([]) else None
    else if text[0] == '=' then
      if position >= 2 && position + pads + 1 >= 4 then Some([])
      else Scan(text[1..], position, left, if position >= 2 then pads + 1 else pads)
    else
      match SymbolValue(text[0])
      case None => Scan(text[1..], position, left, pads)
      case Some(v) =>
        match position
        case 0 => Scan(text[1..], 1, v, 0)
        case 1 => Then(left * 4 + v / 16, Scan(text[1..], 2, v % 16, 0))
        case 2 => Then(left * 16 + v / 4, Scan(text[1..], 3, v % 4, 0))
        case 3 => Then(left * 64 + v, Scan(text[1..], 0, 0, 0))
  }

  function Then(b: Byte, rest: Option<seq<Byte>>): Option<seq<Byte>> {
    if rest.Some? then Some([b] + rest.value) else None
  }

  predicate Ascii(text: string) {
    forall i | 0 <= i < |text| :: text[i] as int < 128
  }

  /** What decode_cursor makes of a token before it looks at the JSON in it. */
  function Decoded(token: string): Option<seq<Byte>> {
    if Ascii(token) then Scan(Repadded(token), 0, 0, 0) else None
  }

  /** One symbol of an encoding goes through the decoding loop. */
  lemma SymbolScans(v: int, rest: string, position: nat, left: int)
    requires 0 <= v < 64 && position < 4
    requires (position == 0 ==> left == 0) && (position == 1 ==> 0 <= left < 64)
    requires (position == 2 ==> 0 <= left < 16) && (position == 3 ==> 0 <= left < 4)
    ensures Scan([Symbol(v)] + rest, position, left, 0) ==
            match position
            case 0 => Scan(rest, 1, v, 0)
            case 1 => Then(left * 4 + v / 16, Scan(rest, 2, v % 16, 0))
            case 2 => Then(left * 16 + v / 4, Scan(rest, 3, v % 4, 0))
            case _ => Then(left * 64 + v, Scan(rest, 0, 0, 0))
  {
    assert ([Symbol(v)] + rest)[1..] == rest;
  }

  lemma GroupScans(a: Byte, b: Byte, c: Byte, rest: string)
    ensures Scan(Group(a, b, c) + rest, 0, 0, 0) == Then(a, Then(b, Then(c, Scan(rest, 0, 0, 0))))
  {
    hide Scan, Symbol;
    var (v0, v1, v2, v3) := (a / 4, a % 4 * 16 + b / 16, b % 16 * 4 + c / 64, c % 64);
    var rest3 := [Symbol(v3)] + rest;
    var rest2 := [Symbol(v2)] + rest3;
    var rest1 := [Symbol(v1)] + rest2;
    assert Group(a, b, c) + rest == [Symbol(v0)] + rest1;
    SymbolScans(v0, rest1, 0, 0);
    SymbolScans(v1, rest2, 1, v0);
    SymbolScans(v2, rest3, 2, v1 % 16);
    SymbolScans(v3, rest, 3, v2 % 4);
  }

  lemma OneScans(a: Byte)
    ensures Scan(Group(a, 0, 0)[..2] + "==", 0, 0, 0) == Some([a])
  {
    var (v0, v1) := (a / 4, a % 4 * 16);
    assert Group(a, 0, 0)[..2] + "==" == [Symbol(v0)] + ([Symbol(v1)] + "==");
    SymbolScans(v0, [Symbol(v1)] + "==", 0, 0);
    SymbolScans(v1, "==", 1, v0);
    assert "=="[1..] == "=";
    assert Scan("=", 2, 0, 1) == Some([]);
    assert Scan("==", 2, 0, 0) == Some([]);
    assert [a] + [] == [a];
  }

  lemma TwoScan(a: Byte, b: Byte)
    ensures Scan(Group(a, b, 0)[..3] + "=", 0, 0, 0) == Some([a, b])
  {
    var (v0, v1, v2) := (a / 4, a % 4 * 16 + b / 16, b % 16 * 4);
    var rest2 := [Symbol(v2)] + "=";
    var rest1 := [Symbol(v1)] + rest2;
    assert Group(a, b, 0)[..3] + "=" == [Symbol(v0)] + rest1;
    SymbolScans(v0, rest1, 0, 0);
    SymbolScans(v1, rest2, 1, v0);
    SymbolScans(v2, "=", 2, v1 % 16);
    assert Scan("=", 3, 0, 0) == Some([]);
    assert [a] + ([b] + []) == [a, b];
  }

  lemma NothingScans()
    ensures Scan("", 0, 0, 0) == Some([])
  {
  }

  lemma {:induction false} PaddedRoundTrip(bytes: seq<Byte>)
    ensures Scan(Encoded(bytes), 0, 0, 0) == Some(bytes)
  {
    hide Scan, Group;
    if bytes == [] {
      NothingScans();
    } else if |bytes| == 1 {
      OneScans(bytes[0]);
      assert bytes == [bytes[0]];
    } else if |bytes| == 2 {
      TwoScan(bytes[0], bytes[1]);
      assert bytes == [bytes[0], bytes[1]];
    } else {
      PaddedRoundTrip(bytes[3..]);
      GroupScans(bytes[0], bytes[1], bytes[2], Encoded(bytes[3..]));
      assert bytes == [bytes[0]] + ([bytes[1]] + ([bytes[2]] + bytes[3..]));
    }
  }

  /** Text whose only pads are its last ones. */
  ghost predicate PaddedBy(text: string, pads: nat) {
    && pads <= |text| && Ascii(text)
    && forall i | 0 <= i < |text| :: text[i] == '=' <==> i >= |text| - pads
  }

  lemma GroupBefore(a: Byte, b: Byte, c: Byte, text: string, pads: nat)
    requires PaddedBy(text, pads)
    ensures PaddedBy(Group(a, b, c) + text, pads)
  {
    hide Group;
    GroupIsPlain(a, b, c);
  }

  lemma GroupIsPlain(a: Byte, b: Byte, c: Byte)
    ensures PaddedBy(Group(a, b, c), 0) && |Group(a, b, c)| == 4
  {
    var g := Group(a, b, c);
    forall i | 0 <= i < |g| ensures g[i] != '=' && g[i] as int < 128 {
      assert i == 0 || i == 1 || i == 2 || i == 3;
    }
  }

  /** The encoding comes in groups of four symbols, the last one ending in at most two pads. */
  lemma {:induction false} EncodedShape(bytes: seq<Byte>) returns (pads: nat, groups: nat)
    ensures PaddedBy(Encoded(bytes), pads)
    ensures |Encoded(bytes)| == 4 * groups && |bytes| == 3 * groups - pads && pads <= 2
  {
    hide Symbol, Group;
    if |bytes| == 0 {
      pads, groups := 0, 0;
    } else if |bytes| < 3 {
      pads, groups := 3 - |bytes|, 1;
      var a, b := bytes[0], if |bytes| == 2 then bytes[1] else 0;
      GroupIsPlain(a, b, 0);
    } else {
      pads, groups := EncodedShape(bytes[3..]);
      groups := groups + 1;
      GroupIsPlain(bytes[0], bytes[1], bytes[2]);
      GroupBefore(bytes[0], bytes[1], bytes[2], Encoded(bytes[3..]), pads);
    }
  }

  lemma {:induction false} StripsPads(text: string, pads: nat)
    requires pads <= |text| && PaddedBy(text, pads)
    ensures Stripped(text) == text[..|text| - pads] && text == Stripped(text) + Pad(pads)
    decreases pads
  {
    hide PaddedBy, Pad;
    if pads == 0 {
      NoPads(text);
    } else {
      var front := text[..|text| - 1];
      PadAdded(text, pads);
      StripsPads(front, pads - 1);
      assert front[..|front| - (pads - 1)] == text[..|text| - pads];
      assert Stripped(front) + Pad(pads - 1) + "=" == Stripped(front) + (Pad(pads - 1) + "=");
    }
  }

  lemma NoPads(text: string)
    requires PaddedBy(text, 0)
    ensures Stripped(text) == text[..|text|] == text && Pad(0) == ""
  {
  }

  lemma PadAdded(text: string, pads: nat)
    requires 0 < pads <= |text| && PaddedBy(text, pads)
    ensures PaddedBy(text[..|text| - 1], pads - 1) && text == text[..|text| - 1] + "="
    ensures Stripped(text) == Stripped(text[..|text| - 1]) && Pad(pads) == Pad(pads - 1) + "="
  {
  }

  /** The token: encoded, then stripped. */
  function Token(bytes: seq<Byte>): string {
    Stripped(Encoded(bytes))
  }

  lemma PadsBack(bytes: seq<Byte>)
    ensures Repadded(Token(bytes)) == Encoded(bytes) && Ascii(Token(bytes))
    ensures |Token(bytes)| == (|bytes| * 4 + 2) / 3
  {
    hide Encoded, Stripped, Pad, PaddedBy;
    var pads, groups := EncodedShape(bytes);
    PaddedIsAscii(Encoded(bytes), pads);
    StripsPads(Encoded(bytes), pads);
    PadCount(groups, pads);
  }

  lemma PaddedIsAscii(text: string, pads: nat)
    requires PaddedBy(text, pads)
    ensures pads <= |text| && Ascii(text[..|text| - pads])
  {
  }

  lemma PadCount(groups: int, pads: int)
    requires 0 <= pads <= 2
    ensures 4 * groups - pads == ((3 * groups - pads) * 4 + 2) / 3 && -(4 * groups - pads) % 4 == pads
  {
  }

  /** Encoding without padding loses nothing. */
  lemma RoundTrip(bytes: seq<Byte>)
    ensures Decoded(Token(bytes)) == Some(bytes)
  {
    PadsBack(bytes);
    PaddedRoundTrip(bytes);
  }
}
