/** The one JSON payload whose bytes matter: `{"data":"<base64>"}`, the body of a
    stream frame. The text is ASCII, so a character is its code. */
module StreamPayload {
  import opened Common
  import opened Frames
  import Base64

  const OPENING: string := "{\"data\":\""
  const CLOSING: string := "\"}"

  function Code(c: char): byte
    requires c as int < 128
  {
    c as int
  }

  function Ascii(s: string): (bs: seq<byte>)
    requires forall c <- s :: c as int < 128
  {
    assert forall i :: 0 <= i < |s| ==> s[i] in s;
    seq(|s|, i requires 0 <= i < |s| => Code(s[i]))
  }

  function FromAscii(bs: seq<byte>): string {
    seq(|bs|, i requires 0 <= i < |bs| => bs[i] as char)
  }

  lemma JsonIsAscii(data: seq<byte>)
    ensures forall c <- OPENING + Base64.Encode(data) + CLOSING :: c as int < 128
  {
    Base64.EncodeText(data);
  }

  /** What the pump puts in the frame for one chunk. */
  function Serialize(data: seq<byte>): seq<byte> {
    JsonIsAscii(data);
    Ascii(OPENING + Base64.Encode(data) + CLOSING)
  }

  /** What the client takes out of a payload of this form. */
  function Parse(payload: seq<byte>): Option<seq<byte>> {
    var s := FromAscii(payload);
    var n := |s| - |CLOSING|;
    if n < |OPENING| || s[..|OPENING|] != OPENING || s[n..] != CLOSING then None
    else Base64.Decode(s[|OPENING|..n])
  }

  /** The client recovers every chunk. */
  lemma ParseSerialize(data: seq<byte>)
    ensures Parse(Serialize(data)) == Some(data)
  {
    var b := Base64.Encode(data);
    JsonIsAscii(data);
    var s := OPENING + b + CLOSING;
    assert forall i :: 0 <= i < |s| ==> s[i] in s;
    assert FromAscii(Serialize(data)) == s;
    assert s[..|OPENING|] == OPENING && s[|s| - |CLOSING|..] == CLOSING && s[|OPENING|..|s| - |CLOSING|] == b;
    Base64.DecodeEncode(data);
  }

  /** The bytes of a payload: a JSON object of one field, character by character. */
  lemma PayloadText(data: seq<byte>)
    ensures var text := "{\"data\":\"" + Base64.Encode(data) + "\"}";
      && |Serialize(data)| == |text|
      && forall i :: 0 <= i < |text| ==> Serialize(data)[i] == text[i] as int
  {
    JsonIsAscii(data);
    var text := OPENING + Base64.Encode(data) + CLOSING;
    assert forall i :: 0 <= i < |text| ==> text[i] in text;
  }

  /** A reader's chunk always makes a frame that the default limits accept, and the
      frame that arrives carries the same chunk. */
  lemma ChunkDelivered(data: seq<byte>, msgType: byte, rest: seq<byte>, fault: bool)
    requires 1 <= |data| <= 16384
    ensures |Serialize(data)| == 11 + 4 * ((|data| + 2) / 3) <= 21859
    ensures Fits(Frame(msgType, Serialize(data)), DEFAULT_MAX_PAYLOAD_LEN)
    ensures var got := Decode(Encode(Frame(msgType, Serialize(data))) + rest, fault, DEFAULT_MAX_PAYLOAD_LEN);
      && got == ReadOutcome(Ok(Frame(msgType, Serialize(data))), rest)
      && Parse(got.result.value.payload) == Some(data)
  {
    Base64.EncodeLength(data);
    ParseSerialize(data);
    DecodeEncode(Frame(msgType, Serialize(data)), rest, fault, DEFAULT_MAX_PAYLOAD_LEN, DEFAULT_MAX_PAYLOAD_LEN);
  }
}
