/**
  Packets on a LocoNet line, as loconet.c finds them among the bytes that arrive and closes them before they go
  out. The top bit marks the first byte of a packet, which also tells its length.
 */
module LocoNet {
  import opened Waveform

  type Bytes = seq<bv8>

  const OPC_IDLE: bv8 := 0x85

  const IBUFFER := 256

  /** The packets of variable length are short enough for the buffer of the caller. */
  const MAX_PACKET := 128

  predicate Starts(byte: bv8) {
    byte & 0x80 == 0x80
  }

  /** The length of a packet by its first two bytes. */
  function PacketLength(first: bv8, second: bv8): nat {
    if first & 0xe0 == 0x80 then 2
    else if first & 0xe0 == 0xa0 then 4
    else if first & 0xe0 == 0xc0 then 6
    else second as nat
  }

  /** A packet of LocoNet: opcodes from 0x80 on have two bytes, from 0xa0 on four, from 0xc0 on six, and from 0xe0 on as
      many as the second byte says. */
  predicate WellFormed(packet: Bytes) {
    && 2 <= |packet| <= MAX_PACKET
    && packet[0] >= 0x80
    && |packet| == if packet[0] <= 0x9f then 2
                   else if packet[0] <= 0xbf then 4
                   else if packet[0] <= 0xdf then 6
                   else packet[1] as nat
  }

  lemma OpcodeTells(packet: Bytes)
    requires WellFormed(packet)
    ensures 2 <= |packet| <= MAX_PACKET && Starts(packet[0]) && |packet| == PacketLength(packet[0], packet[1])
  {
    OpcodeClass(packet[0]);
  }

  lemma OpcodeClass(opcode: bv8)
    ensures Starts(opcode) <==> opcode >= 0x80
    ensures opcode & 0xe0 == 0x80 <==> 0x80 <= opcode <= 0x9f
    ensures opcode & 0xe0 == 0xa0 <==> 0xa0 <= opcode <= 0xbf
    ensures opcode & 0xe0 == 0xc0 <==> 0xc0 <= opcode <= 0xdf
  {
  }

  // ---------------------------------------------------------------- reading, on sequences

  datatype Received = Received(pending: Bytes, packet: Bytes)

  /** One poll: a byte, if there is one, goes behind those that wait; a complete packet leaves an empty buffer. */
  function Poll(pending: Bytes, byte: Option<bv8>): Received {
    var p := if byte.Some? then pending + [byte.value] else pending;
    if |p| < 2 || PacketLength(p[0], p[1]) > |p| then Received(p, [])
    else Received([], p[..PacketLength(p[0], p[1])])
  }

  /** The bytes on the line, without the polls that found none. */
  function Arrived(line: seq<Option<bv8>>): Bytes
    decreases |line|
  {
    if line == [] then [] else (if line[0].Some? then [line[0].value] else []) + Arrived(line[1..])
  }

  function Concat(packets: seq<Bytes>): Bytes
    decreases |packets|
  {
    if packets == [] then [] else packets[0] + Concat(packets[1..])
  }

  ghost predicate AllWellFormed(packets: seq<Bytes>) {
    forall i :: 0 <= i < |packets| ==> WellFormed(packets[i])
  }

  // ---------------------------------------------------------------- the buffer behind it

  /** The buffer with a byte at its end, if there is one. */
  function Filled(cells: Bytes, n: nat, byte: Option<bv8>): Bytes
    requires n < |cells|
  {
    if byte.Some? then cells[n := byte.value] else cells
  }

  /** The first cell from i on with the start of a packet, or the end; the search does not stop at the bytes that
      have been read. */
  function FirstStart(cells: Bytes, i: nat): (start: nat)
    requires i <= |cells|
    ensures i <= start <= |cells|
    ensures forall k :: i <= k < start ==> !Starts(cells[k])
    ensures start < |cells| ==> Starts(cells[start])
    decreases |cells| - i
  {
    if i == |cells| || Starts(cells[i]) then i else FirstStart(cells, i + 1)
  }

  /** The search finds a start, and a byte behind it. */
  predicate Searchable(cells: Bytes, n: nat) {
    n < 2 || FirstStart(cells, 0) + 1 < |cells|
  }

  /** The packet that the buffer with n bytes gives, if any. */
  function Found(cells: Bytes, n: nat): Option<Bytes>
    requires n <= |cells| && Searchable(cells, n)
  {
    if n < 2 then None
    else
      var start := FirstStart(cells, 0);
      var length := PacketLength(cells[start], cells[start + 1]);
      if start + length > n then None else Some(cells[start..start + length])
  }

  /** When the bytes that wait begin with the start of a packet, what the rest of the buffer holds does not matter. */
  lemma FoundIsPolled(cells: Bytes, n: nat, byte: Option<bv8>)
    requires n + 1 < |cells|
    requires var m := if byte.Some? then n + 1 else n; m == 0 || Starts(Filled(cells, n, byte)[0])
    ensures var full := Filled(cells, n, byte);
            var m := if byte.Some? then n + 1 else n;
      && Searchable(full, m)
      && Poll(cells[..n], byte)
         == if Found(full, m).None? then Received(full[..m], []) else Received([], Found(full, m).value)
  {
    hide PacketLength, Starts;
    var full := Filled(cells, n, byte);
    if byte.Some? { assert full[..n + 1] == cells[..n] + [byte.value]; }
  }

  /** A poll within a packet. */
  lemma PollWithin(packet: Bytes, n: nat, byte: Option<bv8>)
    requires WellFormed(packet) && n < |packet|
    requires byte.Some? ==> byte.value == packet[n]
    ensures Poll(packet[..n], byte) ==
              if byte.None? then Received(packet[..n], [])
              else if n + 1 < |packet| then Received(packet[..n + 1], [])
              else Received([], packet)
  {
    hide PacketLength, Starts, WellFormed;
    OpcodeTells(packet);
    if byte.Some? {
      assert packet[..n] + [packet[n]] == packet[..n + 1];
      assert packet[..|packet|] == packet;
    }
  }

  lemma NotEmpty(packets: seq<Bytes>)
    requires AllWellFormed(packets)
    ensures packets != [] ==> |packets[0]| >= 2
  {
    hide PacketLength;
  }

  // ---------------------------------------------------------------- runs of the driver

  /** The array of the driver and the number of bytes that wait in it. */
  datatype Buffer = Buffer(cells: Bytes, n: nat)

  function Grown(b: Buffer, byte: Option<bv8>): nat {
    if byte.Some? then b.n + 1 else b.n
  }

  /** One call of ln_read_serial stays within its buffer, and the packet within that of the caller. */
  ghost predicate Callable(b: Buffer, byte: Option<bv8>, room: nat) {
    && |b.cells| == IBUFFER && Grown(b, byte) < IBUFFER - 1
    && var full := Filled(b.cells, b.n, byte);
       && Searchable(full, Grown(b, byte))
       && (Found(full, Grown(b, byte)).Some? ==> |Found(full, Grown(b, byte)).value| <= room)
  }

  /** The buffer after a call; a packet leaves it empty. */
  ghost function ReadOnce(b: Buffer, byte: Option<bv8>, room: nat): (b': Buffer)
    requires Callable(b, byte, room)
    ensures |b'.cells| == IBUFFER && b'.n < IBUFFER
  {
    var full := Filled(b.cells, b.n, byte);
    Buffer(full, if Found(full, Grown(b, byte)).Some? then 0 else Grown(b, byte))
  }

  /** The packet that a call returns. */
  ghost function Returned(b: Buffer, byte: Option<bv8>, room: nat): Option<Bytes>
    requires Callable(b, byte, room)
  {
    Found(Filled(b.cells, b.n, byte), Grown(b, byte))
  }

  /** The driver can be called for every byte of the line in turn. */
  ghost predicate AllCallable(b: Buffer, line: seq<Option<bv8>>, room: nat)
    decreases |line|
  {
    line == [] || (Callable(b, line[0], room) && AllCallable(ReadOnce(b, line[0], room), line[1..], room))
  }

  /** The packets that these calls return. */
  ghost function ReadAll(b: Buffer, line: seq<Option<bv8>>, room: nat): seq<Bytes>
    requires AllCallable(b, line, room)
    decreases |line|
  {
    if line == [] then []
    else
      var packet := Returned(b, line[0], room);
      (if packet.Some? then [packet.value] else []) + ReadAll(ReadOnce(b, line[0], room), line[1..], room)
  }

  lemma StaysInside(b: Buffer, byte: Option<bv8>, room: nat)
    requires Callable(b, byte, room)
    ensures |b.cells| == IBUFFER && Grown(b, byte) < IBUFFER - 1
  {
  }

  lemma TooFew(b: Buffer, byte: Option<bv8>, room: nat)
    requires Callable(b, byte, room) && Grown(b, byte) < 2
    ensures Returned(b, byte, room) == None
    ensures ReadOnce(b, byte, room) == Buffer(Filled(b.cells, b.n, byte), Grown(b, byte))
  {
    hide PacketLength, Starts;
  }

  /** What a call makes of two bytes or more. */
  lemma Enough(b: Buffer, byte: Option<bv8>, room: nat)
    requires Callable(b, byte, room) && Grown(b, byte) >= 2
    ensures var full := Filled(b.cells, b.n, byte);
      var start := FirstStart(full, 0);
      && start + 1 < |full| == IBUFFER
      && var length := PacketLength(full[start], full[start + 1]);
         if start + length > Grown(b, byte)
         then Returned(b, byte, room) == None && ReadOnce(b, byte, room) == Buffer(full, Grown(b, byte))
         else && length <= room && start + length <= IBUFFER
              && Returned(b, byte, room) == Some(full[start..start + length])
              && ReadOnce(b, byte, room) == Buffer(full, 0)
  {
    hide PacketLength, Starts;
  }

  /** A call within a packet does what a poll does, whatever else is in the buffer. */
  lemma ReadWithin(b: Buffer, packet: Bytes, byte: Option<bv8>, room: nat)
    requires |b.cells| == IBUFFER && WellFormed(packet) && b.n < |packet| && room >= MAX_PACKET
    requires b.cells[..b.n] == packet[..b.n] && (byte.Some? ==> byte.value == packet[b.n])
    ensures Callable(b, byte, room)
    ensures var b' := ReadOnce(b, byte, room);
      if byte.None? then b' == b && Returned(b, byte, room) == None
      else if b.n + 1 < |packet|
      then b'.n == b.n + 1 && b'.cells[..b.n + 1] == packet[..b.n + 1] && Returned(b, byte, room) == None
      else b'.n == 0 && Returned(b, byte, room) == Some(packet)
  {
    hide PacketLength, Starts, FirstStart, WellFormed;
    OpcodeTells(packet);
    var full := Filled(b.cells, b.n, byte);
    if byte.Some? {
      assert full[..b.n + 1] == packet[..b.n] + [packet[b.n]] == packet[..b.n + 1];
      assert full[0] == full[..b.n + 1][0];
    } else if b.n > 0 {
      assert full[0] == b.cells[..b.n][0];
    }
    FoundIsPolled(b.cells, b.n, byte);
    PollWithin(packet, b.n, byte);
    hide Found, Searchable, Poll;
  }

  /** The driver undoes the framing: well-formed packets that arrive byte by byte, with any number of empty polls in
      between, are returned as they were and in order, whatever the buffer holds behind the bytes that wait, and no
      call leaves the buffers. */
  lemma {:induction false} DriverReadsPackets(b: Buffer, line: seq<Option<bv8>>, packets: seq<Bytes>, room: nat)
    requires |b.cells| == IBUFFER && b.n <= IBUFFER && room >= MAX_PACKET
    requires AllWellFormed(packets) && b.cells[..b.n] + Arrived(line) == Concat(packets)
    requires if packets == [] then b.n == 0 else b.n < |packets[0]|
    ensures AllCallable(b, line, room) && ReadAll(b, line, room) == packets
    decreases |line|
  {
    hide Callable, ReadOnce, Returned, WellFormed, Arrived, Concat;
    if packets == [] {
      ConcatNothing();
      EmptyPolls(b, line, room);
    } else {
      NotEmpty(packets);
      NotEmpty(packets[1..]);
      var packet, others := packets[0], Concat(packets[1..]);
      ConcatFirst(packets);
      NextArrives(b.cells[..b.n], line, packet, others);
      ReadWithin(b, packet, line[0], room);
      var b' := ReadOnce(b, line[0], room);
      if line[0].None? || b.n + 1 < |packet| {
        DriverReadsPackets(b', line[1..], packets, room);
      } else {
        assert b'.cells[..0] + others == others;
        DriverReadsPackets(b', line[1..], packets[1..], room);
        assert [packet] + packets[1..] == packets;
      }
    }
  }

  lemma ConcatNothing()
    ensures Concat([]) == []
  {
  }

  lemma ConcatFirst(packets: seq<Bytes>)
    requires packets != []
    ensures Concat(packets) == packets[0] + Concat(packets[1..])
  {
  }

  /** The next byte on the line is the next of the packet. */
  lemma NextArrives(pending: Bytes, line: seq<Option<bv8>>, packet: Bytes, others: Bytes)
    requires pending + Arrived(line) == packet + others && |pending| < |packet|
    ensures line != [] && pending == packet[..|pending|]
    ensures var n, rest := |pending|, Arrived(line[1..]);
      if line[0].None? then pending + rest == packet + others
      else && line[0].value == packet[n] && packet[..n + 1] + rest == packet + others
           && (n + 1 == |packet| ==> rest == others)
  {
    var n := |pending|;
    assert pending == (packet + others)[..n] == packet[..n];
    if line == [] {
      assert false;
    } else if line[0].Some? {
      var rest := Arrived(line[1..]);
      assert Arrived(line) == [line[0].value] + rest;
      assert (pending + Arrived(line))[n] == line[0].value == packet[n];
      assert packet[..n + 1] == pending + [line[0].value];
      if n + 1 == |packet| {
        assert packet + rest == packet + others;
        assert rest == (packet + rest)[|packet|..] == (packet + others)[|packet|..] == others;
      }
    }
  }

  lemma {:induction false} EmptyPolls(b: Buffer, line: seq<Option<bv8>>, room: nat)
    requires |b.cells| == IBUFFER && b.n == 0 && b.cells[..0] + Arrived(line) == []
    ensures AllCallable(b, line, room) && ReadAll(b, line, room) == []
    decreases |line|
  {
    if line != [] {
      assert line[0].None?;
      EmptyPolls(b, line[1..], room);
    }
  }

  // ---------------------------------------------------------------- checksums

  /** The checksum of some bytes: everything combined with 0xff. */
  function Checksum(bytes: Bytes): bv8 {
    if bytes == [] then 0xff else Checksum(bytes[..|bytes| - 1]) ^ bytes[|bytes| - 1]
  }

  lemma ChecksumSplit(bytes: Bytes, last: bv8)
    ensures Checksum(bytes + [last]) == Checksum(bytes) ^ last
  {
    assert (bytes + [last])[..|bytes|] == bytes;
  }

  /** All the bytes of a packet together. */
  function XorOf(bytes: Bytes): bv8 {
    if bytes == [] then 0 else XorOf(bytes[..|bytes| - 1]) ^ bytes[|bytes| - 1]
  }

  lemma Inverted(a: bv8, b: bv8)
    ensures (0xff ^ a) ^ b == 0xff ^ (a ^ b)
  {
  }

  lemma {:induction false} ChecksumIsInverted(bytes: Bytes)
    ensures Checksum(bytes) == 0xff ^ XorOf(bytes)
  {
    if bytes != [] {
      ChecksumIsInverted(bytes[..|bytes| - 1]);
      Inverted(XorOf(bytes[..|bytes| - 1]), bytes[|bytes| - 1]);
    }
  }

  /** Exactly the checksum closes a packet: the exclusive or of all its bytes is 0xff if and only if the last byte is
      the checksum of the others. */
  lemma ChecksumCloses(bytes: Bytes, last: bv8)
    ensures XorOf(bytes + [last]) == 0xff <==> last == Checksum(bytes)
  {
    assert (bytes + [last])[..|bytes|] == bytes;
    ChecksumIsInverted(bytes);
    OnlyOne(XorOf(bytes), last);
  }

  lemma OnlyOne(a: bv8, last: bv8)
    ensures a ^ last == 0xff <==> last == 0xff ^ a
  {
  }

  /** ln_checksum. */
  method LnChecksum(cmd: array<bv8>, len: nat) returns (chksum: bv8)
    requires len <= cmd.Length
    ensures chksum == Checksum(cmd[..len])
  {
    chksum := 0xff;
    for i := 0 to len
      invariant chksum == Checksum(cmd[..i])
    {
      ChecksumSplit(cmd[..i], cmd[i]);
      assert cmd[..i + 1] == cmd[..i] + [cmd[i]];
      chksum := chksum ^ cmd[i];
    }
  }

  // ---------------------------------------------------------------- the driver

  class Driver {
    const ibuffer: array<bv8>
    var ibufferin: nat
    var ibufferout: nat
    var recvPackets: nat
    var written: seq<Bytes>

    ghost predicate Valid()
      reads this
    {
      ibuffer.Length == IBUFFER && ibufferin < IBUFFER - 1
    }

    ghost function State(): Buffer
      reads this, ibuffer
    {
      Buffer(ibuffer[..], ibufferin)
    }

    constructor ()
      ensures Valid() && fresh(ibuffer) && State().n == 0 && recvPackets == 0 && written == []
    {
      ibuffer := new bv8[IBUFFER];
      ibufferin, ibufferout, recvPackets, written := 0, 0, 0, [];
    }

    /** ln_read_serial; the search for the start of a packet must not leave the buffer, nor the packet that of the
        caller. */
    method LnReadSerial(byte: Option<bv8>, cmd: array<bv8>) returns (pktlen: nat)
      requires Valid() && cmd != ibuffer && Callable(State(), byte, cmd.Length)
      modifies this, ibuffer, cmd
      ensures Valid() && written == old(written)
      ensures var packet := Returned(old(State()), byte, cmd.Length);
        && State() == ReadOnce(old(State()), byte, cmd.Length)
        && pktlen == (if packet.Some? then |packet.value| else 0)
        && cmd[..] == (if packet.Some? then packet.value else []) + old(cmd[..])[pktlen..]
    {
      hide Starts, PacketLength, FirstStart, Returned, ReadOnce, Callable, Filled, Grown;
      ghost var b := State();
      StaysInside(b, byte, cmd.Length);
      Fill(byte);
      ibufferout := 0;
      if ibufferin < 2 {
        TooFew(b, byte, cmd.Length);
        return 0;
      }
      Enough(b, byte, cmd.Length);
      pktlen := Search();
      if ibufferout + pktlen > ibufferin {
        return 0;
      }
      CopyTo(cmd, pktlen);
      ibufferin := 0;
      recvPackets := recvPackets + 1;
    }

    /** A byte goes behind those that wait. */
    method Fill(byte: Option<bv8>)
      requires Valid() && Grown(State(), byte) < IBUFFER - 1
      modifies `ibufferin, ibuffer
      ensures State() == Buffer(Filled(old(ibuffer[..]), old(ibufferin), byte), Grown(old(State()), byte))
    {
      if byte.Some? {
        ibuffer[ibufferin] := byte.value;
        ibufferin := ibufferin + 1;
      }
    }

    /** The loop that looks for the start of a packet, and the length by the bytes there. */
    method Search() returns (pktlen: nat)
      requires ibuffer.Length == IBUFFER && FirstStart(ibuffer[..], 0) + 1 < IBUFFER && ibufferout == 0
      modifies `ibufferout
      ensures ibufferout == FirstStart(ibuffer[..], 0)
      ensures pktlen == PacketLength(ibuffer[..][ibufferout], ibuffer[..][ibufferout + 1])
    {
      hide Starts, PacketLength;
      while !Starts(ibuffer[ibufferout])
        invariant ibufferout <= FirstStart(ibuffer[..], 0) < IBUFFER - 1
        decreases IBUFFER - ibufferout
      {
        ibufferout := ibufferout + 1;
      }
      pktlen := PacketLength(ibuffer[ibufferout], ibuffer[ibufferout + 1]);
    }

    /** The memcpy from the buffer. */
    method CopyTo(cmd: array<bv8>, n: nat)
      requires n <= cmd.Length && ibufferout + n <= ibuffer.Length && cmd != ibuffer
      modifies cmd
      ensures cmd[..] == ibuffer[..][ibufferout..ibufferout + n] + old(cmd[..])[n..]
    {
      for i := 0 to n
        invariant forall k :: 0 <= k < i ==> cmd[k] == ibuffer[ibufferout + k]
        invariant cmd[i..] == old(cmd[..])[i..]
      {
        cmd[i] := ibuffer[ibufferout + i];
      }
      assert cmd[..n] == ibuffer[..][ibufferout..ibufferout + n];
      assert cmd[..] == cmd[..n] + cmd[n..];
    }

    /** ln_sendmessage; the packet is closed in place. */
    method LnSendmessage(packet: array<bv8>, length: nat) returns (rc: int)
      requires 1 <= length <= packet.Length && packet != ibuffer
      modifies `written, packet
      ensures packet[..length - 1] == old(packet[..length - 1]) && packet[length..] == old(packet[length..])
      ensures XorOf(packet[..length]) == 0xff
      ensures if packet[0] == 0x85 then rc == 1 && written == old(written)
              else rc == 0 && written == old(written) + [packet[..length]]
    {
      var chksum := LnChecksum(packet, length - 1);
      packet[length - 1] := chksum;
      ChecksumCloses(packet[..length - 1], chksum);
      assert packet[..length] == packet[..length - 1] + [chksum];
      if packet[0] != OPC_IDLE {
        written := written + [packet[..length]];
        return 0;
      }
      return 1;
    }
  }
}
