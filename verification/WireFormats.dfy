/** The wire form of a write request: a repeated field of length-delimited messages
    (internal/promwrap/batch_encoder.go; the "Base 128 Varints" and "Length-Delimited
    Records" sections of the Protocol Buffers encoding specification). The bytes of one
    time series are opaque here. */
module WireFormats {
  import opened Options

  type Byte = b: int | 0 <= b < 256
  type Bytes = seq<Byte>

  /** Field 1 with wire type 2. */
  const TIMESERIES_TAG: Byte := 10

  /** Seven bits a byte, the least significant group first; every byte but the last has
      its top bit set. */
  function Varint(n: nat): (bytes: Bytes)
    ensures bytes != []
  {
    if n < 128 then [n] else [128 + n % 128] + Varint(n / 128)
  }

  function ParseVarint(bytes: Bytes): Option<(nat, Bytes)> {
    if bytes == [] then
      None
    else if bytes[0] < 128 then
      Some((bytes[0], bytes[1..]))
    else
      match ParseVarint(bytes[1..])
      case None => None
      case Some((high, rest)) => Some((bytes[0] - 128 + 128 * high, rest))
  }

  lemma {:induction false} VarintRoundTrip(n: nat, rest: Bytes)
    ensures ParseVarint(Varint(n) + rest) == Some((n, rest))
  {
    var bytes := Varint(n) + rest;
    if n < 128 {
      assert bytes[1..] == rest;
    } else {
      VarintRoundTrip(n / 128, rest);
      assert bytes[1..] == Varint(n / 128) + rest;
    }
  }

  /** What the digits of a varint stand for. */
  ghost function Worth(bytes: Bytes): nat {
    if bytes == [] then 0 else bytes[0] % 128 + 128 * Worth(bytes[1..])
  }

  /** The most that a number of digits can stand for, and one more. */
  ghost function Room(digits: nat): nat {
    if digits == 0 then 1 else 128 * Room(digits - 1)
  }

  lemma {:induction false} WorthWithinRoom(bytes: Bytes)
    ensures Worth(bytes) < Room(|bytes|)
  {
    if bytes != [] {
      WorthWithinRoom(bytes[1..]);
    }
  }

  lemma {:induction false} RoomGrows(a: nat, b: nat)
    requires a <= b
    ensures 0 < Room(a) <= Room(b)
    decreases b
  {
    if 0 < a {
      RoomGrows(a - 1, b - 1);
    } else if 0 < b {
      RoomGrows(0, b - 1);
    }
  }

  /** The digits add up to the number, only the last has its top bit clear, and no shorter
      list of digits stands for the number. */
  lemma {:induction false} VarintBytes(n: nat)
    ensures Worth(Varint(n)) == n
    ensures forall k :: 0 <= k < |Varint(n)| ==>
      (Varint(n)[k] < 128 <==> k == |Varint(n)| - 1)
    ensures 1 < |Varint(n)| ==> Room(|Varint(n)| - 1) <= n
    ensures forall other: Bytes :: other != [] && Worth(other) == n ==> |Varint(n)| <= |other|
  {
    if 128 <= n {
      VarintBytes(n / 128);
    }
    forall other: Bytes | other != [] && Worth(other) == n
      ensures |Varint(n)| <= |other|
    {
      WorthWithinRoom(other);
      if |other| < |Varint(n)| {
        RoomGrows(|other|, |Varint(n)| - 1);
        assert false;
      }
    }
  }

  /** Counts the bytes of a varint by shifting. */
  method VarintSize(value: nat) returns (size: nat)
    ensures size == |Varint(value)|
  {
    size := 1;
    var rest := value;
    while rest >= 128
      invariant size + |Varint(rest)| == |Varint(value)| + 1
    {
      rest := rest / 128;
      size := size + 1;
    }
  }

  /** One entry of the repeated field. */
  function Record(message: Bytes): Bytes {
    [TIMESERIES_TAG] + Varint(|message|) + message
  }

  method RepeatedMessageSize(messageBytes: nat) returns (size: nat)
    ensures size == 1 + |Varint(messageBytes)| + messageBytes
    ensures forall message: Bytes :: |message| == messageBytes ==> size == |Record(message)|
  {
    var length := VarintSize(messageBytes);
    size := 1 + length + messageBytes;
  }

  /** The whole request. */
  function Wire(messages: seq<Bytes>): Bytes {
    if messages == [] then [] else Record(messages[0]) + Wire(messages[1..])
  }

  lemma {:induction false} WireSnoc(messages: seq<Bytes>, message: Bytes)
    ensures Wire(messages + [message]) == Wire(messages) + Record(message)
  {
    if messages == [] {
      assert messages + [message] == [message];
    } else {
      WireSnoc(messages[1..], message);
      assert (messages + [message])[1..] == messages[1..] + [message];
      assert Record(messages[0]) + (Wire(messages[1..]) + Record(message))
          == (Record(messages[0]) + Wire(messages[1..])) + Record(message);
    }
  }

  /** Reads a request back: `None` if it is not a sequence of complete records. */
  function Parse(bytes: Bytes): Option<seq<Bytes>>
    decreases |bytes|
  {
    if bytes == [] then
      Some([])
    else if bytes[0] != TIMESERIES_TAG then
      None
    else
      match ParseVarint(bytes[1..])
      case None => None
      case Some((length, rest)) =>
        if length > |rest| || |rest| >= |bytes| then
          None
        else
          match Parse(rest[length..])
          case None => None
          case Some(messages) => Some([rest[..length]] + messages)
  }

  lemma ParseRecord(message: Bytes, others: Bytes)
    ensures Parse(Record(message) + others) ==
      match Parse(others)
      case None => None
      case Some(messages) => Some([message] + messages)
  {
    var bytes, rest := Record(message) + others, message + others;
    assert bytes[1..] == Varint(|message|) + rest;
    VarintRoundTrip(|message|, rest);
    assert rest[|message|..] == others && rest[..|message|] == message;
    hide Varint, ParseVarint;
  }

  /** Nothing is lost on the wire: a receiver reads back exactly the messages sent, in
      order. */
  lemma {:induction false} WireRoundTrip(messages: seq<Bytes>)
    ensures Parse(Wire(messages)) == Some(messages)
    decreases |messages|
  {
    if messages != [] {
      WireRoundTrip(messages[1..]);
      ParseRecord(messages[0], Wire(messages[1..]));
      hide Parse, Record;
      assert messages == [messages[0]] + messages[1..];
    }
  }
}
