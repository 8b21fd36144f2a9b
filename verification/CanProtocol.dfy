/** The CAN wire format: one 8-byte frame per command and per response. */
module CanProtocol {
  import opened Common

  const COMMAND_FRAME_ID: uint32 := 0x100
  const RESPONSE_FRAME_ID: uint32 := 0x101
  const PROTOCOL_VERSION: uint8 := 1
  const PAYLOAD_SIZE: uint8 := 8
  const STOP_OPCODE: uint8 := 0xFF
  const APPLICATION_COMMAND_ID_MAX: uint16 := 0x7FFF
  const STOP_COMMAND_ID_MIN: uint16 := 0x8000

  type FrameData = s: seq<uint8> | |s| == 8 witness [0, 0, 0, 0, 0, 0, 0, 0]

  datatype RawFrame = RawFrame(id: uint32, size: uint8, data: FrameData)

  datatype Command = Command(commandId: uint16, opcode: uint8, argument: int32)

  datatype Response = Response(
    commandId: uint16, resultCode: uint8, deviceMode: uint8, detail0: uint8, detail1: uint8, detail2: uint8)

  datatype DecodeError = WrongFrameId | WrongPayloadSize | UnsupportedVersion

  datatype Decoded<+T> = Malformed(error: DecodeError) | Decoded(value: T)

  /** The bit pattern of a two's complement argument. */
  function ArgumentBits(argument: int32): uint32 {
    if argument < 0 then argument + 0x1_0000_0000 else argument
  }

  function BitsToArgument(bits: uint32): int32 {
    if bits >= 0x8000_0000 then bits - 0x1_0000_0000 else bits
  }

  function DecodeU16(data: FrameData): uint16 {
    data[1] as int * 0x100 + data[2]
  }

  function DecodeU32(data: FrameData): uint32 {
    data[4] as int * 0x100_0000 + data[5] as int * 0x1_0000 + data[6] as int * 0x100 + data[7]
  }

  function EncodeCommand(command: Command): RawFrame {
    var bits := ArgumentBits(command.argument);
    RawFrame(COMMAND_FRAME_ID, PAYLOAD_SIZE,
             [PROTOCOL_VERSION, command.commandId / 0x100, command.commandId % 0x100, command.opcode,
              bits / 0x100_0000, bits / 0x1_0000 % 0x100, bits / 0x100 % 0x100, bits % 0x100])
  }

  function EncodeResponse(response: Response): RawFrame {
    RawFrame(RESPONSE_FRAME_ID, PAYLOAD_SIZE,
             [PROTOCOL_VERSION, response.commandId / 0x100, response.commandId % 0x100, response.resultCode,
              response.deviceMode, response.detail0, response.detail1, response.detail2])
  }

  function DecodeCommand(frame: RawFrame): Decoded<Command> {
    if frame.id != COMMAND_FRAME_ID then Malformed(WrongFrameId)
    else if frame.size != PAYLOAD_SIZE then Malformed(WrongPayloadSize)
    else if frame.data[0] != PROTOCOL_VERSION then Malformed(UnsupportedVersion)
    else
      Decoded(Command(DecodeU16(frame.data), frame.data[3], BitsToArgument(DecodeU32(frame.data))))
  }

  function DecodeResponse(frame: RawFrame): Decoded<Response> {
    if frame.id != RESPONSE_FRAME_ID then Malformed(WrongFrameId)
    else if frame.size != PAYLOAD_SIZE then Malformed(WrongPayloadSize)
    else if frame.data[0] != PROTOCOL_VERSION then Malformed(UnsupportedVersion)
    else
      Decoded(Response(DecodeU16(frame.data), frame.data[3], frame.data[4],
                       frame.data[5], frame.data[6], frame.data[7]))
  }

  /** The encoder's shifts split a word into bytes that add up to it again. */
  lemma WordOfBytes(word: uint32)
    ensures word / 0x100_0000 < 0x100
    ensures word == word / 0x100_0000 * 0x100_0000 + word / 0x1_0000 % 0x100 * 0x1_0000
                    + word / 0x100 % 0x100 * 0x100 + word % 0x100
  {
    var x := word / 0x100;
    var y := x / 0x100;
    assert y == word / 0x1_0000 && y / 0x100 == word / 0x100_0000;
  }

  lemma CommandRoundTrip(command: Command)
    ensures DecodeCommand(EncodeCommand(command)) == Decoded(command)
  {
    var bits := ArgumentBits(command.argument);
    WordOfBytes(bits);
    var data := EncodeCommand(command).data;
    assert data[4] == bits / 0x100_0000 && data[5] == bits / 0x1_0000 % 0x100;
    assert data[6] == bits / 0x100 % 0x100 && data[7] == bits % 0x100;
    assert DecodeU32(data) == bits;
  }

  lemma ResponseRoundTrip(response: Response)
    ensures DecodeResponse(EncodeResponse(response)) == Decoded(response)
  {
    assert EncodeResponse(response).data[1] == response.commandId / 0x100;
  }

  /** The layout on the bus: frame ids 0x100 and 0x101, eight bytes, version 1 first, every number big-endian, negative
      arguments in two's complement, and opcode 0xFF for STOP. */
  lemma WireLayout(command: Command, response: Response)
    ensures var f, argument := EncodeCommand(command), command.argument as int;
            && f.id == 0x100 && f.size == 8
            && f.data[0] == 1
            && f.data[1] as int * 256 + f.data[2] == command.commandId
            && f.data[3] == command.opcode
            && f.data[4] as int * 0x100_0000 + f.data[5] as int * 0x1_0000 + f.data[6] as int * 0x100 + f.data[7]
               == (if argument >= 0 then argument else argument + 0x1_0000_0000)
    ensures var f := EncodeResponse(response);
            && f.id == 0x101 && f.size == 8
            && f.data[0] == 1
            && f.data[1] as int * 256 + f.data[2] == response.commandId
            && f.data[3] == response.resultCode && f.data[4] == response.deviceMode
            && f.data[5..] == [response.detail0, response.detail1, response.detail2]
    ensures STOP_OPCODE == 0xFF
  {
    WordOfBytes(ArgumentBits(command.argument));
  }

  /** What a receiver ignores: frames with another id, another length or another version. */
  lemma MalformedExactlyWhen(frame: RawFrame)
    ensures DecodeCommand(frame).Malformed? <==> frame.id != 0x100 || frame.size != 8 || frame.data[0] != 1
    ensures DecodeResponse(frame).Malformed? <==> frame.id != 0x101 || frame.size != 8 || frame.data[0] != 1
  {
  }

  /** The four bytes of a big-endian word are recovered by the encoder's shifts. */
  lemma BytesOfWord(a: uint8, b: uint8, c: uint8, d: uint8)
    ensures var word := a as int * 0x100_0000 + b as int * 0x1_0000 + c as int * 0x100 + d;
            && word / 0x100_0000 == a
            && word / 0x1_0000 % 0x100 == b
            && word / 0x100 % 0x100 == c
            && word % 0x100 == d
  {
    var low := b as int * 0x1_0000 + c as int * 0x100 + d;
    var word := a as int * 0x100_0000 + low;
    assert word / 0x1_0000 == a as int * 0x100 + b;
    assert word / 0x100 == a as int * 0x1_0000 + b as int * 0x100 + c;
  }

  /** A frame is read as a command exactly when it is the encoding of that command: the decoder accepts
      nothing but canonical frames, so no two commands share a frame and no command has two frames. */
  lemma CommandFrameIsCanonical(frame: RawFrame, command: Command)
    ensures DecodeCommand(frame) == Decoded(command) <==> frame == EncodeCommand(command)
  {
    CommandRoundTrip(command);
    if DecodeCommand(frame) == Decoded(command) {
      var d := frame.data;
      BytesOfWord(d[4], d[5], d[6], d[7]);
      assert ArgumentBits(command.argument) == DecodeU32(d);
      var e := EncodeCommand(command).data;
      assert d[1] == e[1] && d[2] == e[2];
      assert d[4] == e[4] && d[5] == e[5] && d[6] == e[6] && d[7] == e[7];
      assert d == e;
    }
  }

  lemma ResponseFrameIsCanonical(frame: RawFrame, response: Response)
    ensures DecodeResponse(frame) == Decoded(response) <==> frame == EncodeResponse(response)
  {
    ResponseRoundTrip(response);
    if DecodeResponse(frame) == Decoded(response) {
      assert frame.data == EncodeResponse(response).data;
    }
  }
}
