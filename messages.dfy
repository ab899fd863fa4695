/** The wire envelope exchanged with the device (`Message`) and the
    generation of its correlation id from a GUID. */
module Messages {
  import opened Wrappers

  /** One hexadecimal digit. */
  type Nibble = x: int | 0 <= x < 16

  /** A GUID, given by the 32 hexadecimal digits that `Guid.ToString()`
      prints, in printed order. `Guid.NewGuid()` is an oracle: every GUID
      the model uses is an input. */
  type Guid = s: seq<Nibble> | |s| == 32 witness seq(32, _ => 0)

  /** The lower-case digit `Guid.ToString()` prints for `n`. */
  function HexDigit(n: Nibble): (c: char)
    ensures '0' <= c <= '9' || 'a' <= c <= 'f'
  {
    if n < 10 then (48 + n) as char else (87 + n) as char
  }

  /** The value of a lower-case hexadecimal digit; the inverse of `HexDigit`. */
  function DigitValue(c: char): (r: Option<Nibble>)
    ensures r.Some? <==> '0' <= c <= '9' || 'a' <= c <= 'f'
    ensures r.Some? ==> HexDigit(r.value) == c
  {
    if '0' <= c <= '9' then Some(c as int - 48)
    else if 'a' <= c <= 'f' then Some(c as int - 87)
    else None
  }

  /** The digits `s`, printed. */
  function HexText(s: seq<Nibble>): (t: string)
    ensures |t| == |s|
    ensures forall i :: 0 <= i < |s| ==> t[i] == HexDigit(s[i])
  {
    if s == [] then "" else [HexDigit(s[0])] + HexText(s[1..])
  }

  /** Reads a string of lower-case hexadecimal digits back. */
  function ParseHex(t: string): (r: Option<seq<Nibble>>)
    ensures r.Some? ==> |r.value| == |t|
  {
    if t == [] then Some([])
    else match DigitValue(t[0])
      case None => None
      case Some(n) =>
        match ParseHex(t[1..])
        case None => None
        case Some(rest) => Some([n] + rest)
  }

  /** Printing digits and reading them back gives the digits. */
  lemma {:induction false} ParseHexText(s: seq<Nibble>)
    ensures ParseHex(HexText(s)) == Some(s)
  {
    if s != [] {
      var t := HexText(s);
      assert t[0] == HexDigit(s[0]) && t[1..] == HexText(s[1..]);
      assert DigitValue(t[0]) == Some(s[0]);
      ParseHexText(s[1..]);
      assert [s[0]] + s[1..] == s;
    }
  }

  /** `Guid.ToString()`: five hyphen-separated groups of 8, 4, 4, 4 and 12 digits. */
  function GuidText(g: Guid): (t: string)
    ensures |t| == 36
    ensures t[8] == '-' && t[13] == '-' && t[18] == '-' && t[23] == '-'
    ensures t[..8] == HexText(g[..8])
    ensures forall i :: 0 <= i < 36 && i != 8 && i != 13 && i != 18 && i != 23 ==> t[i] != '-'
  {
    HexText(g[..8]) + "-" + HexText(g[8..12]) + "-" + HexText(g[12..16]) + "-"
      + HexText(g[16..20]) + "-" + HexText(g[20..])
  }

  /** `Message.GenerateId`: the first 8 characters of the GUID's text, which
      are its first hexadecimal group. */
  function GenerateId(g: Guid): (id: string)
    ensures |id| == 8
    ensures id == HexText(g[..8])
    ensures forall i :: 0 <= i < 8 ==> id[i] != '-'
  {
    GuidText(g)[..8]
  }

  /** The generated id gives back the GUID's first eight digits. */
  lemma GenerateIdRoundTrip(g: Guid)
    ensures ParseHex(GenerateId(g)) == Some(g[..8])
  {
    ParseHexText(g[..8]);
  }

  /** Two GUIDs give the same id exactly when their first groups agree. */
  lemma GenerateIdDeterminedByFirstGroup(g1: Guid, g2: Guid)
    ensures GenerateId(g1) == GenerateId(g2) <==> g1[..8] == g2[..8]
  {
    GenerateIdRoundTrip(g1);
    GenerateIdRoundTrip(g2);
  }

  /** The keys of a JSON payload object that the client reads. A missing
      `returnValue` reads as `false`, a missing string as `None`. */
  datatype Payload = Payload(
    returnValue: bool,
    pairingType: Option<string>,
    key: Option<string>,
    socketPath: Option<string>)

  /** An object with none of those keys. */
  const EmptyPayload := Payload(false, None, None, None)

  /** `Message`: the envelope. `msgType` is the C# `Type` property. */
  datatype Message = Message(
    id: string,
    msgType: Option<string>,
    uri: Option<string>,
    payload: Option<Payload>,
    error: Option<string>)

  /** `new Message()`: the id is generated; no other property has a value. */
  function NewMessage(g: Guid): (m: Message)
    ensures m.id == GenerateId(g)
    ensures m.msgType == None && m.uri == None && m.payload == None && m.error == None
  {
    Message(GenerateId(g), None, None, None, None)
  }

  /** A new message's id is the first group of the GUID's text: eight
      characters, no hyphen. */
  lemma NewMessageId(g: Guid)
    ensures NewMessage(g).id == GuidText(g)[..8]
    ensures |NewMessage(g).id| == 8 && '-' !in NewMessage(g).id
  {
  }

  /** Setting `Id` replaces the generated value and leaves the other four
      properties unset; the override is observable exactly when it differs
      from the generated id. */
  lemma SetIdOverrides(g: Guid, id: string)
    ensures NewMessage(g).(id := id) == Message(id, None, None, None, None)
    ensures NewMessage(g).(id := id) == NewMessage(g) <==> id == GenerateId(g)
  {
  }
}
