/** Commands to the multiplexer thread: serialized into a pipe by other threads, and read back by the pollset
    updater with one scattered read per command. */
module CommandPipe {
  import opened ByteBuffers
  import opened Serialization

  // pollset_opcode, the manager's address, and the operation.
  datatype Command = Command(code: nat, manager: nat, op: nat)

  predicate InRange(c: Command) {
    c.code < 256 && c.manager < SIZE_T && c.op < 256
  }

  const MESSAGE_TYPES: seq<Ty> := [Scalar(1), Scalar(8), Scalar(1)]
  const MESSAGE_SIZE: nat := 1 + 8 + 1

  function Fields(c: Command): seq<Value> {
    [Num(c.code), Num(c.manager), Num(c.op)]
  }

  lemma FieldsTyped(c: Command)
    requires InRange(c)
    ensures HaveTypes(Fields(c), MESSAGE_TYPES)
    ensures EncodeAll(Fields(c), MESSAGE_TYPES)
         == LittleEndian(c.code, 1) + LittleEndian(c.manager, 8) + LittleEndian(c.op, 1)
  {
    SizeFits();
    var vs, ts := Fields(c), MESSAGE_TYPES;
    assert ts[1..] == [Scalar(8), Scalar(1)] && vs[1..] == [Num(c.manager), Num(c.op)];
    assert ts[1..][1..] == [Scalar(1)] && vs[1..][1..] == [Num(c.op)];
    assert ts[1..][1..][1..] == [] && vs[1..][1..][1..] == [];
    assert HaveTypes(vs[1..][1..], ts[1..][1..]);
    assert HaveTypes(vs[1..], ts[1..]);
    assert EncodeAll(vs[1..][1..], ts[1..][1..]) == LittleEndian(c.op, 1) + [];
    assert EncodeAll(vs[1..], ts[1..]) == LittleEndian(c.manager, 8) + LittleEndian(c.op, 1);
  }

  // write_to_pipe
  function Message(c: Command): (m: Bytes)
    requires InRange(c)
    ensures |m| == MESSAGE_SIZE
  {
    FieldsTyped(c);
    EncodeAll(Fields(c), MESSAGE_TYPES)
  }

  function Stream(cs: seq<Command>): Bytes
    requires forall i :: 0 <= i < |cs| ==> InRange(cs[i])
  {
    if cs == [] then [] else Message(cs[0]) + Stream(cs[1..])
  }

  // handle_read_event: readv fills code, manager and operation; anything but a full message is an error.
  function ScatterRead(stream: Bytes): Decoded<Command> {
    if |stream| < MESSAGE_SIZE then NotEnough
    else Read(Command(FromLittleEndian(stream[..1]), FromLittleEndian(stream[1..9]), FromLittleEndian(stream[9..10])),
              stream[MESSAGE_SIZE..])
  }

  function ReadAll(stream: Bytes): (seq<Command>, Bytes)
    decreases |stream|
  {
    match ScatterRead(stream)
    case NotEnough => ([], stream)
    case Read(c, rest) =>
      var (cs, tail) := ReadAll(rest);
      ([c] + cs, tail)
  }

  lemma MessageRecovered(c: Command, rest: Bytes)
    requires InRange(c)
    ensures ScatterRead(Message(c) + rest) == Read(c, rest)
  {
    FieldsTyped(c);
    SizeFits();
    var s := Message(c) + rest;
    assert s[..1] == LittleEndian(c.code, 1);
    assert s[1..9] == LittleEndian(c.manager, 8);
    assert s[9..10] == LittleEndian(c.op, 1);
    assert s[MESSAGE_SIZE..] == rest;
    NumberRoundTrip(c.code, 1);
    NumberRoundTrip(c.manager, 8);
    NumberRoundTrip(c.op, 1);
  }

  /** Whatever sequence of commands was written, scattered reads recover exactly that sequence and leave an
      incomplete message alone. */
  lemma {:induction false} CommandsRecovered(cs: seq<Command>, tail: Bytes)
    requires forall i :: 0 <= i < |cs| ==> InRange(cs[i])
    requires |tail| < MESSAGE_SIZE
    ensures ReadAll(Stream(cs) + tail) == (cs, tail)
  {
    if cs == [] {
      assert Stream(cs) + tail == tail;
    } else {
      assert Stream(cs) + tail == Message(cs[0]) + (Stream(cs[1..]) + tail);
      MessageRecovered(cs[0], Stream(cs[1..]) + tail);
      CommandsRecovered(cs[1..], tail);
      assert [cs[0]] + cs[1..] == cs;
    }
  }
}
