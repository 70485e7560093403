/**
 * The host side of the upload protocol (scripts/loader.py): an image is sent
 * as an address block, one or more data blocks of at most 255 bytes and a
 * trailer, each framed as head 0x55, sync 0x3C, kind, length, payload,
 * checksum and a closing 0x55, and each followed by a wait for the
 * monitor's acknowledgement. A missing acknowledgement closes the port and
 * ends the upload with exit status 1.
 *
 * The serial port is a `Link`: a log of the blocks written to it and an
 * oracle that says, wait by wait, whether an acknowledgement arrived in time.
 */
module Loader {
  import opened Bits
  import opened Bytes
  import opened Wrappers

  /** Head and trailer sentinel, and the sync byte. */
  const Head: Byte := 0x55
  const Sync: Byte := 0x3C

  /** Block kinds. */
  const AddressKind: Byte := 0x00
  const DataKind: Byte := 0x01
  const TrailerKind: Byte := 0xFF

  /** The largest payload of a data block. */
  const MaxPayload := 255

  // ---------------------------------------------------------------------
  // Framing

  /** The sum of the bytes. */
  function Sum(s: seq<Byte>): nat {
    if |s| == 0 then 0 else s[0] + Sum(s[1..])
  }

  /** `cs & 0xFF` after `cs += out[i]` over a region. */
  function Checksum(s: seq<Byte>): Byte {
    Sum(s) % 256
  }

  /** The sum of two regions is the sum of their sums. */
  lemma {:induction false} SumAppend(s: seq<Byte>, t: seq<Byte>)
    ensures Sum(s + t) == Sum(s) + Sum(t)
    decreases |s|
  {
    if |s| > 0 {
      assert (s + t)[1..] == s[1..] + t;
      SumAppend(s[1..], t);
    } else {
      assert s + t == t;
    }
  }

  /** `send_addr_block`: the 8-byte block holding the start address big-endian, `(address >> 8) & 0xFF` then `address & 0xFF`. */
  function AddressFrame(address: int): seq<Byte> {
    var hi, lo := address / 256 % 256, address % 256;
    [Head, Sync, AddressKind, 2, hi, lo, Checksum([AddressKind, 2, hi, lo]), Head]
  }

  /** `send_data_block`'s frame for one payload: `length + 6` bytes. */
  function DataFrame(payload: seq<Byte>): seq<Byte>
    requires |payload| <= MaxPayload
  {
    [Head, Sync, DataKind, |payload|] + payload + [Checksum([DataKind, |payload|] + payload), Head]
  }

  /** `send_trailer`: the constant 6-byte end-of-upload block. */
  const TrailerFrame: seq<Byte> := [Head, Sync, TrailerKind, 0x00, 0x00, Head]

  /** A frame taken apart. */
  datatype Block = Block(kind: Byte, payload: seq<Byte>, checksum: Byte)

  /**
   * Reading a frame back: head and sync, then kind and length, exactly
   * `length` payload bytes, the checksum and the closing 0x55.
   */
  function Parse(f: seq<Byte>): (b: Option<Block>)
    ensures b.Some? ==> |b.value.payload| <= MaxPayload
  {
    if |f| >= 6 && f[0] == Head && f[1] == Sync && |f| - 6 == f[3] && f[|f| - 1] == Head
    then Some(Block(f[2], f[4..|f| - 2], f[|f| - 2]))
    else None
  }

  /** A block whose checksum is the low byte of the sum of its kind, length and payload. */
  predicate Sound(b: Block)
    requires |b.payload| <= MaxPayload
  {
    b.checksum == Checksum([b.kind, |b.payload|] + b.payload)
  }

  /** The bytes of a data frame, one by one. */
  lemma DataFrameAt(payload: seq<Byte>, k: nat)
    requires |payload| <= MaxPayload && k < |payload| + 6
    ensures var f, n := DataFrame(payload), |payload|;
      && |f| == n + 6
      && f[k] == if k == 0 then Head else if k == 1 then Sync else if k == 2 then DataKind else if k == 3 then n
                 else if k < n + 4 then payload[k - 4] else if k == n + 4 then Checksum([DataKind, n] + payload) else Head
  {}

  /** A data frame reads back as a sound data block with the payload it was built from. */
  lemma {:induction false} DataFrameParses(payload: seq<Byte>)
    requires |payload| <= MaxPayload
    ensures |DataFrame(payload)| == |payload| + 6
    ensures var b := Parse(DataFrame(payload));
      b.Some? && b.value.kind == DataKind && b.value.payload == payload && Sound(b.value)
  {
    var f := DataFrame(payload);
    assert f[4..|f| - 2] == payload;
  }

  /** An address frame reads back as a sound 2-byte block whose payload is the address modulo 0x10000, big-endian. */
  lemma {:induction false} AddressFrameParses(address: int)
    ensures |AddressFrame(address)| == 8
    ensures var b := Parse(AddressFrame(address));
      && b.Some? && b.value.kind == AddressKind && |b.value.payload| == 2 && Sound(b.value)
      && Join(b.value.payload[0], b.value.payload[1]) == address % 0x10000
  {
    var f := AddressFrame(address);
    assert f[4..|f| - 2] == [f[4], f[5]];
    assert [AddressKind, 2] + [f[4], f[5]] == [AddressKind, 2, f[4], f[5]];
    var q := address / 256;
    assert address == 256 * q + address % 256;
    assert q == 256 * (q / 256) + q % 256;
    assert address == 0x10000 * (q / 256) + (256 * (q % 256) + address % 256);
    DivModUnique(address, 0x10000, q / 256, 256 * (q % 256) + address % 256);
  }

  /**
   * The trailer reads back as an empty block of kind 0xFF whose checksum
   * byte is 0: the one block whose checksum is not the sum of kind and
   * length, which would be 0xFF.
   */
  lemma TrailerParses()
    ensures Parse(TrailerFrame) == Some(Block(TrailerKind, [], 0))
    ensures !Sound(Block(TrailerKind, [], 0)) && Checksum([TrailerKind, 0]) == 0xFF
  {
    assert TrailerFrame[4..4] == [];
    assert [TrailerKind, 0] + [] == [TrailerKind, 0];
    assert Sum([TrailerKind, 0]) == 0xFF by {
      assert [TrailerKind, 0][1..] == [0];
      assert [0 as Byte][1..] == [];
    }
  }

  /** Changing one byte of a region changes its sum by the difference. */
  lemma {:induction false} SumUpdate(s: seq<Byte>, i: nat, v: Byte)
    requires i < |s|
    ensures Sum(s[i := v]) + s[i] == Sum(s) + v
    decreases |s|
  {
    if i == 0 {
      assert s[i := v][1..] == s[1..];
    } else {
      assert s[i := v][1..] == s[1..][i - 1 := v];
      SumUpdate(s[1..], i - 1, v);
    }
  }

  /**
   * The checksum follows every payload byte: changing one byte moves it by
   * the difference modulo 256, so a single corrupted payload byte always
   * changes the checksum.
   */
  lemma {:induction false} ChecksumSeesPayload(payload: seq<Byte>, i: nat, v: Byte)
    requires |payload| <= MaxPayload && i < |payload|
    ensures Checksum([DataKind, |payload|] + payload[i := v]) ==
      (Checksum([DataKind, |payload|] + payload) + v - payload[i]) % 256
    ensures v != payload[i] ==>
      Checksum([DataKind, |payload|] + payload[i := v]) != Checksum([DataKind, |payload|] + payload)
  {
    var s := [DataKind, |payload|] + payload;
    assert s[i + 2 := v] == [DataKind, |payload|] + payload[i := v];
    SumUpdate(s, i + 2, v);
    var a, b := Sum(s), Sum(s[i + 2 := v]);
    var t := a % 256 + v - payload[i];
    DivModUnique(b, 256, a / 256 + t / 256, t % 256);
  }

  // ---------------------------------------------------------------------
  // Segmentation

  /** `length` in `send_data_block`: what is left of the image, at most 255. */
  function ChunkLength(data: seq<Byte>, counter: nat): (n: nat)
    requires counter <= |data|
    ensures n <= MaxPayload && counter + n <= |data|
    ensures n == 0 <==> counter == |data|
  {
    if |data| - counter > MaxPayload then MaxPayload else |data| - counter
  }

  /**
   * The payloads the upload loop sends from `counter` on: one chunk, and
   * more while the counter has not reached the end of the image.
   */
  function Chunks(data: seq<Byte>, counter: nat): (cs: seq<seq<Byte>>)
    requires counter <= |data|
    ensures |cs| >= 1
    ensures forall k :: 0 <= k < |cs| ==> |cs[k]| <= MaxPayload
    decreases |data| - counter
  {
    var n := ChunkLength(data, counter);
    [data[counter..counter + n]] + (if counter + n >= |data| then [] else Chunks(data, counter + n))
  }

  /** The chunks laid end to end. */
  function Flatten(cs: seq<seq<Byte>>): seq<Byte> {
    if |cs| == 0 then [] else cs[0] + Flatten(cs[1..])
  }

  /**
   * The chunks from `counter` on are the rest of the image, in order, and
   * every one but an empty image's single chunk carries at least one byte
   * and all but the last carry a full 255.
   */
  lemma {:induction false} ChunksCoverRest(data: seq<Byte>, counter: nat)
    requires counter <= |data|
    ensures Flatten(Chunks(data, counter)) == data[counter..]
    ensures counter < |data| ==> forall k :: 0 <= k < |Chunks(data, counter)| ==> |Chunks(data, counter)[k]| > 0
    ensures forall k :: 0 <= k < |Chunks(data, counter)| - 1 ==> |Chunks(data, counter)[k]| == MaxPayload
    decreases |data| - counter
  {
    var n := ChunkLength(data, counter);
    var cs := Chunks(data, counter);
    if counter + n >= |data| {
      assert data[counter..counter + n] == data[counter..];
      assert cs == [data[counter..]];
      assert Flatten(cs) == data[counter..] + Flatten([]);
    } else {
      ChunksCoverRest(data, counter + n);
      assert cs[1..] == Chunks(data, counter + n);
      assert data[counter..] == data[counter..counter + n] + data[counter + n..];
    }
  }

  /** The whole image is sent, in at least one data block; an empty image is sent as one empty block. */
  lemma {:induction false} ChunksCoverImage(data: seq<Byte>)
    ensures Flatten(Chunks(data, 0)) == data
    ensures |data| == 0 ==> Chunks(data, 0) == [[]]
    ensures |Chunks(data, 0)| == if |data| == 0 then 1 else (|data| + MaxPayload - 1) / MaxPayload
  {
    ChunksCoverRest(data, 0);
    ChunkCount(data, 0);
  }

  /** How many blocks the loop sends from `counter` on. */
  lemma {:induction false} ChunkCount(data: seq<Byte>, counter: nat)
    requires counter <= |data|
    ensures |Chunks(data, counter)| == if counter == |data| then 1 else (|data| - counter + MaxPayload - 1) / MaxPayload
    decreases |data| - counter
  {
    var n := ChunkLength(data, counter);
    if counter + n < |data| {
      ChunkCount(data, counter + n);
      var rest := |data| - counter - MaxPayload;
      var x := rest + MaxPayload - 1;
      DivModUnique(x + MaxPayload, MaxPayload, x / MaxPayload + 1, x % MaxPayload);
    }
  }

  /** One data frame per chunk. */
  function Frames(cs: seq<seq<Byte>>): (fs: seq<seq<Byte>>)
    requires forall k :: 0 <= k < |cs| ==> |cs[k]| <= MaxPayload
    ensures |fs| == |cs|
    ensures forall k :: 0 <= k < |cs| ==> fs[k] == DataFrame(cs[k])
  {
    if |cs| == 0 then [] else [DataFrame(cs[0])] + Frames(cs[1..])
  }

  /** The frames from `counter` on: this chunk's frame, then those of the chunks after it. */
  lemma FramesStep(data: seq<Byte>, counter: nat)
    requires counter <= |data|
    ensures var n := ChunkLength(data, counter);
      Frames(Chunks(data, counter)) ==
        [DataFrame(data[counter..counter + n])] + (if counter + n >= |data| then [] else Frames(Chunks(data, counter + n)))
  {
    var n := ChunkLength(data, counter);
    var cs := Chunks(data, counter);
    assert cs[0] == data[counter..counter + n];
    if counter + n < |data| {
      assert cs[1..] == Chunks(data, counter + n);
    } else {
      assert cs[1..] == [];
    }
  }

  /**
   * One block of the data loop, as a session: its frame is written; it is
   * the last if unacknowledged or if it reaches the end of the image.
   */
  lemma DataStep(data: seq<Byte>, counter: nat, replies: seq<bool>)
    requires counter <= |data|
    ensures var next := counter + ChunkLength(data, counter);
      var frame := DataFrame(data[counter..next]);
      Session(Frames(Chunks(data, counter)), replies) ==
        if !Acked(replies) then Exchange([frame], false, Rest(replies))
        else if next >= |data| then Exchange([frame], true, Rest(replies))
        else After([frame], Session(Frames(Chunks(data, next)), Rest(replies)))
  {
    var next := counter + ChunkLength(data, counter);
    var more := if next >= |data| then [] else Frames(Chunks(data, next));
    FramesStep(data, counter);
    SessionStep(DataFrame(data[counter..next]), more, replies);
  }

  /** Everything an upload writes when every block is acknowledged. */
  function Blocks(data: seq<Byte>, address: int): seq<seq<Byte>> {
    [AddressFrame(address)] + Frames(Chunks(data, 0)) + [TrailerFrame]
  }

  /**
   * An upload is an address block, then data blocks whose payloads make up
   * the image, then the trailer: three blocks at least.
   */
  lemma {:induction false} BlocksCarryImage(data: seq<Byte>, address: int)
    ensures var bs := Blocks(data, address);
      && |bs| >= 3 && bs[0] == AddressFrame(address) && bs[|bs| - 1] == TrailerFrame
      && |bs| - 2 == |Chunks(data, 0)|
      && (forall k :: 1 <= k < |bs| - 1 ==> bs[k] == DataFrame(Chunks(data, 0)[k - 1]))
      && Flatten(Chunks(data, 0)) == data
  {
    ChunksCoverImage(data);
  }

  /** The sum of a region beginning with two known bytes. */
  lemma {:induction false} SumLiteral(x: Byte, y: Byte, s: seq<Byte>)
    ensures Sum([x, y] + s) == x + y + Sum(s)
  {
    assert ([x, y] + s)[1..] == [y] + s;
    assert ([y] + s)[1..] == s;
  }

  /** Three bytes at address 0 give the address block, one 3-byte data block with checksum 0x64, and the trailer. */
  lemma UploadExample()
    ensures Blocks([0x10, 0x20, 0x30], 0) == [
      [0x55, 0x3C, 0x00, 0x02, 0x00, 0x00, 0x02, 0x55],
      [0x55, 0x3C, 0x01, 0x03, 0x10, 0x20, 0x30, 0x64, 0x55],
      [0x55, 0x3C, 0xFF, 0x00, 0x00, 0x55]]
  {
    var data: seq<Byte> := [0x10, 0x20, 0x30];
    assert data[0..3] == data;
    assert Chunks(data, 0) == [data];
    SumLiteral(0x00, 0x02, [0x00, 0x00]);
    SumLiteral(0x00, 0x00, []);
    SumLiteral(0x01, 0x03, data);
    SumLiteral(0x10, 0x20, [0x30]);
    SumLiteral(0x30, 0x00, []);
    var region: seq<Byte> := [0x00, 0x02] + [0x00, 0x00];
    assert region == [AddressKind, 2, 0 / 256 % 256, 0 % 256];
    assert Checksum(region) == 2;
    assert AddressFrame(0) == [0x55, 0x3C, 0x00, 0x02, 0x00, 0x00, 0x02, 0x55];
    assert Sum([0x01, 0x03] + data) == 0x64;
    assert DataFrame(data) == [0x55, 0x3C, 0x01, 0x03, 0x10, 0x20, 0x30, 0x64, 0x55];
    assert Frames([data]) == [DataFrame(data)];
  }

  // ---------------------------------------------------------------------
  // Acknowledgement

  /** Whether the next wait sees an acknowledgement: no reply left means time-out. */
  function Acked(replies: seq<bool>): bool {
    |replies| > 0 && replies[0]
  }

  /** The replies left after one wait. */
  function Rest(replies: seq<bool>): seq<bool> {
    if |replies| > 0 then replies[1..] else []
  }

  /** What a run of writes leaves: the blocks written, whether all were acknowledged, and the replies not yet used. */
  datatype Exchange = Exchange(log: seq<seq<Byte>>, ok: bool, rest: seq<bool>)

  /**
   * Writing the blocks in turn, each followed by `await_ack_or_exit`: the
   * first block that is not acknowledged is the last one written.
   */
  function Session(blocks: seq<seq<Byte>>, replies: seq<bool>): Exchange {
    if |blocks| == 0 then Exchange([], true, replies)
    else if !Acked(replies) then Exchange([blocks[0]], false, Rest(replies))
    else
      var e := Session(blocks[1..], Rest(replies));
      Exchange([blocks[0]] + e.log, e.ok, e.rest)
  }

  /**
   * A session succeeds exactly when the first `|blocks|` replies are all
   * acknowledgements, and then it writes every block.
   */
  lemma {:induction false} SessionSucceeds(blocks: seq<seq<Byte>>, replies: seq<bool>)
    ensures var e := Session(blocks, replies);
      && (e.ok <==> |replies| >= |blocks| && forall k :: 0 <= k < |blocks| ==> replies[k])
      && (e.ok ==> e.log == blocks)
  {
    if |blocks| > 0 && Acked(replies) {
      SessionSucceeds(blocks[1..], Rest(replies));
      assert Rest(replies) == replies[1..];
    }
  }

  /**
   * A failed session has written a non-empty prefix of the blocks, the
   * last of which went unacknowledged while every one before it was.
   */
  lemma {:induction false} SessionFails(blocks: seq<seq<Byte>>, replies: seq<bool>)
    ensures var e := Session(blocks, replies);
      !e.ok ==> && 0 < |e.log| <= |blocks| && |e.log| <= |replies| + 1 && e.log == blocks[..|e.log|]
                && (forall k :: 0 <= k < |e.log| - 1 ==> replies[k])
                && !Acked(replies[|e.log| - 1..])
  {
    if |blocks| > 0 && Acked(replies) {
      SessionFails(blocks[1..], Rest(replies));
      var e := Session(blocks[1..], Rest(replies));
      var log := [blocks[0]] + e.log;
      assert Session(blocks, replies) == Exchange(log, e.ok, e.rest);
      if !e.ok {
        assert Rest(replies) == replies[1..];
        assert log == blocks[..|log|] by {
          assert e.log == blocks[1..][..|e.log|];
        }
        assert forall k :: 0 <= k < |log| - 1 ==> replies[k] by {
          assert forall k :: 1 <= k < |log| - 1 ==> replies[k] == Rest(replies)[k - 1];
        }
        assert replies[|log| - 1..] == Rest(replies)[|e.log| - 1..];
      }
    }
  }

  /**
   * Writing the blocks of `first` and then those of `second` is a session
   * on `first` and, if that one was acknowledged throughout, a session on
   * `second` with the replies it left.
   */
  lemma {:induction false} SessionConcat(first: seq<seq<Byte>>, second: seq<seq<Byte>>, replies: seq<bool>)
    ensures var e := Session(first, replies);
      Session(first + second, replies) == if e.ok then After(e.log, Session(second, e.rest)) else e
    decreases |first|
  {
    if |first| == 0 {
      assert first + second == second;
    } else {
      assert (first + second)[1..] == first[1..] + second;
      if Acked(replies) {
        SessionConcat(first[1..], second, Rest(replies));
        var e := Session(first[1..], Rest(replies));
        if e.ok {
          assert [first[0]] + (e.log + Session(second, e.rest).log) == ([first[0]] + e.log) + Session(second, e.rest).log;
        }
      }
    }
  }

  /** A session that has already written `done`, all acknowledged. */
  function After(done: seq<seq<Byte>>, e: Exchange): Exchange {
    Exchange(done + e.log, e.ok, e.rest)
  }

  /**
   * The data loop as it runs, block by block from `counter`: the next
   * chunk's frame is written, and the loop stops when it is not
   * acknowledged or when it reaches the end of the image.
   */
  function DataSession(data: seq<Byte>, counter: nat, replies: seq<bool>): Exchange
    requires counter <= |data|
    decreases |data| - counter
  {
    var next := counter + ChunkLength(data, counter);
    var frame := DataFrame(data[counter..next]);
    if !Acked(replies) then Exchange([frame], false, Rest(replies))
    else if next >= |data| then Exchange([frame], true, Rest(replies))
    else After([frame], DataSession(data, next, Rest(replies)))
  }

  /** The data loop is a session over the frames of the image's chunks. */
  lemma {:induction false} DataSessionIsSession(data: seq<Byte>, counter: nat, replies: seq<bool>)
    requires counter <= |data|
    ensures DataSession(data, counter, replies) == Session(Frames(Chunks(data, counter)), replies)
    decreases |data| - counter
  {
    var next := counter + ChunkLength(data, counter);
    DataStep(data, counter, replies);
    if Acked(replies) && next < |data| {
      DataSessionIsSession(data, next, Rest(replies));
    }
  }

  /**
   * The data loop's invariant carried across one block: after what has
   * been written, the loop either ends with this block or goes on from the
   * next counter with the next reply.
   */
  lemma DataLoopStep(log: seq<seq<Byte>>, data: seq<Byte>, counter: nat, replies: seq<bool>)
    requires counter <= |data|
    ensures var next := counter + ChunkLength(data, counter);
      var frame := DataFrame(data[counter..next]);
      After(log, DataSession(data, counter, replies)) ==
        if !Acked(replies) || next >= |data| then Exchange(log + [frame], Acked(replies), Rest(replies))
        else After(log + [frame], DataSession(data, next, Rest(replies)))
  {
    var next := counter + ChunkLength(data, counter);
    if Acked(replies) && next < |data| {
      AfterAfter(log, DataFrame(data[counter..next]), DataSession(data, next, Rest(replies)));
    }
  }

  /** Blocks written one after another, all acknowledged. */
  lemma AfterAfter(done: seq<seq<Byte>>, block: seq<Byte>, e: Exchange)
    ensures After(done, After([block], e)) == After(done + [block], e)
  {
    assert done + ([block] + e.log) == (done + [block]) + e.log;
  }

  /** One block of a session: written, then either unacknowledged and last, or followed by the rest. */
  lemma SessionStep(block: seq<Byte>, more: seq<seq<Byte>>, replies: seq<bool>)
    ensures Session([block] + more, replies) ==
      if Acked(replies) then After([block], Session(more, Rest(replies)))
      else Exchange([block], false, Rest(replies))
  {
    assert ([block] + more)[1..] == more;
  }

  /**
   * The upload as a session, stage by stage: the address block, then the
   * data loop if the address was acknowledged, then the trailer if every
   * data block was.
   */
  lemma UploadStages(data: seq<Byte>, address: int, replies: seq<bool>)
    ensures var e, first := Session(Blocks(data, address), replies), [AddressFrame(address)];
      !Acked(replies) ==> e == Exchange(first, false, Rest(replies))
    ensures var e, first := Session(Blocks(data, address), replies), [AddressFrame(address)];
      var d := Session(Frames(Chunks(data, 0)), Rest(replies));
      && (Acked(replies) && !d.ok ==> e == Exchange(first + d.log, false, d.rest))
      && (Acked(replies) && d.ok ==> e == Exchange(first + d.log + [TrailerFrame], Acked(d.rest), Rest(d.rest)))
  {
    var frames := Frames(Chunks(data, 0));
    SessionConcat([AddressFrame(address)] + frames, [TrailerFrame], replies);
    SessionConcat([AddressFrame(address)], frames, replies);
    SessionStep(AddressFrame(address), [], replies);
    if Acked(replies) {
      var d := Session(frames, Rest(replies));
      if d.ok {
        SessionStep(TrailerFrame, [], d.rest);
        assert [AddressFrame(address)] + d.log + [TrailerFrame] == ([AddressFrame(address)] + d.log) + [TrailerFrame];
      }
    }
  }

  /** The serial port: what has been written to it, the acknowledgement oracle, and whether it is still open. */
  class Link {
    var log: seq<seq<Byte>>
    var replies: seq<bool>
    var isOpen: bool

    constructor (replies: seq<bool>)
      ensures log == [] && this.replies == replies && isOpen
    {
      log := [];
      this.replies := replies;
      isOpen := true;
    }

    /** `uart.write(out)` */
    method Write(block: seq<Byte>)
      modifies this
      ensures log == old(log) + [block] && replies == old(replies) && isOpen == old(isOpen)
    {
      log := log + [block];
    }

    /** `await_ack(uart)`: true if a line arrived before the time-out. */
    method AwaitAck() returns (ack: bool)
      modifies this
      ensures ack == Acked(old(replies)) && replies == Rest(old(replies))
      ensures log == old(log) && isOpen == old(isOpen)
    {
      ack := |replies| > 0 && replies[0];
      replies := Rest(replies);
    }

    /** `uart.close()` */
    method Close()
      modifies this
      ensures log == old(log) && replies == old(replies) && !isOpen
    {
      isOpen := false;
    }
  }

  /** `await_ack_or_exit(uart)`: on a time-out the port is closed and the upload ends (status 1). */
  method AwaitAckOrExit(uart: Link) returns (ok: bool)
    modifies uart
    ensures ok == Acked(old(uart.replies)) && uart.replies == Rest(old(uart.replies))
    ensures uart.log == old(uart.log) && uart.isOpen == (old(uart.isOpen) && ok)
  {
    ok := uart.AwaitAck();
    if !ok {
      uart.Close();
    }
  }

  /** The `cs` loop: the low byte of the sum of `out[2..end]`. */
  method ChecksumOf(out: array<Byte>, end: nat) returns (cs: Byte)
    requires 2 <= end <= out.Length
    ensures cs == Checksum(out[2..end])
  {
    var sum: nat := 0;
    var i := 2;
    while i < end
      invariant 2 <= i <= end
      invariant sum == Sum(out[2..i])
    {
      assert out[2..i + 1] == out[2..i] + [out[i]];
      SumAppend(out[2..i], [out[i]]);
      assert Sum([out[i]]) == out[i] by { assert [out[i]][1..] == []; }
      sum := sum + out[i];
      i := i + 1;
    }
    cs := sum % 256;
  }

  /** `send_addr_block(uart, address)` */
  method SendAddressBlock(uart: Link, address: int)
    modifies uart
    ensures uart.log == old(uart.log) + [AddressFrame(address)]
    ensures uart.replies == old(uart.replies) && uart.isOpen == old(uart.isOpen)
  {
    var out := new Byte[8](_ => 0);
    out[0] := Head;
    out[1] := Sync;
    out[2] := AddressKind;
    out[3] := 2;
    out[4] := address / 256 % 256;
    out[5] := address % 256;
    var cs := ChecksumOf(out, 6);
    out[6] := cs;
    out[7] := Head;
    assert out[2..6] == [AddressKind, 2, address / 256 % 256, address % 256];
    assert out[..] == AddressFrame(address);
    uart.Write(out[..]);
  }

  /**
   * The `bytearray(length + 6)` `send_data_block` fills: header, the
   * `length` image bytes from `counter`, the checksum over kind, length
   * and payload, and the closing 0x55.
   */
  method FrameData(data: seq<Byte>, counter: nat, length: nat) returns (out: array<Byte>)
    requires counter + length <= |data| && length <= MaxPayload
    ensures fresh(out) && out[..] == DataFrame(data[counter..counter + length])
  {
    out := new Byte[length + 6](_ => 0);
    out[0] := Head;
    out[1] := Sync;
    out[2] := DataKind;
    out[3] := length;
    var i := 0;
    while i < length
      invariant 0 <= i <= length
      invariant out[0] == Head && out[1] == Sync && out[2] == DataKind && out[3] == length
      invariant forall k :: 4 <= k < i + 4 ==> out[k] == data[counter + k - 4]
    {
      out[i + 4] := data[counter + i];
      i := i + 1;
    }
    ghost var payload := data[counter..counter + length];
    forall k | 0 <= k < length + 2
      ensures out[2..length + 4][k] == ([DataKind, length] + payload)[k]
    {
      if k >= 2 {
        assert out[k + 2] == data[counter + k - 2];
      }
    }
    assert out[2..length + 4] == [DataKind, length] + payload;
    var cs := ChecksumOf(out, length + 6 - 2);
    out[length + 6 - 2] := cs;
    out[length + 6 - 1] := Head;
    forall k | 0 <= k < length + 6
      ensures out[k] == DataFrame(payload)[k]
    {
      DataFrameAt(payload, k);
      if 4 <= k < length + 4 {
        assert out[k] == data[counter + k - 4];
      }
    }
  }

  /**
   * `send_data_block(uart, bytes, counter)`: the next chunk of the image
   * framed and written; the counter moved past it.
   */
  method SendDataBlock(uart: Link, data: seq<Byte>, counter: nat) returns (counter': nat)
    requires counter <= |data|
    modifies uart
    ensures counter' == counter + ChunkLength(data, counter)
    ensures uart.log == old(uart.log) + [DataFrame(data[counter..counter'])]
    ensures uart.replies == old(uart.replies) && uart.isOpen == old(uart.isOpen)
  {
    var length := |data| - counter;
    if length > 255 {
      length := 255;
    }
    var out := FrameData(data, counter, length);
    counter' := counter + length;
    uart.Write(out[..]);
  }

  /** `send_trailer(uart)` */
  method SendTrailer(uart: Link)
    modifies uart
    ensures uart.log == old(uart.log) + [TrailerFrame]
    ensures uart.replies == old(uart.replies) && uart.isOpen == old(uart.isOpen)
  {
    var out := new Byte[6](_ => 0);
    out[0] := Head;
    out[1] := Sync;
    out[2] := TrailerKind;
    out[3] := 0x00;
    out[4] := 0x00;
    out[5] := Head;
    assert out[..] == TrailerFrame;
    uart.Write(out[..]);
  }


  /**
   * One pass of the data loop: the next block written, and the wait for
   * its acknowledgement, which closes the port on a time-out.
   */
  method SendAckedBlock(uart: Link, data: seq<Byte>, counter: nat) returns (counter': nat, ok: bool)
    requires counter <= |data|
    modifies uart
    ensures counter' == counter + ChunkLength(data, counter)
    ensures uart.log == old(uart.log) + [DataFrame(data[counter..counter'])]
    ensures ok == Acked(old(uart.replies)) && uart.replies == Rest(old(uart.replies))
    ensures uart.isOpen == (old(uart.isOpen) && ok)
  {
    counter' := SendDataBlock(uart, data, counter);
    ok := AwaitAckOrExit(uart);
  }

  /**
   * The data loop of the upload: a block from counter 0, then more while
   * the counter has not reached the image's length (so at least one, even
   * for an empty image), each acknowledged before the next is sent.
   */
  method SendData(uart: Link, data: seq<Byte>) returns (ok: bool)
    requires uart.isOpen
    modifies uart
    ensures var e := DataSession(data, 0, old(uart.replies));
      && uart.log == old(uart.log) + e.log && uart.replies == e.rest
      && ok == e.ok && uart.isOpen == ok
  {
    ghost var start := After(uart.log, DataSession(data, 0, uart.replies));
    var c := 0;
    while true
      invariant c <= |data| && uart.isOpen
      invariant After(uart.log, DataSession(data, c, uart.replies)) == start
      decreases |data| - c
    {
      DataLoopStep(uart.log, data, c, uart.replies);
      var c' := c;
      c', ok := SendAckedBlock(uart, data, c);
      if !ok || |data| - c' <= 0 {
        return;
      }
      c := c';
    }
  }

  /** What the upload has written, regrouped by stage. */
  lemma LogRegroups(log: seq<seq<Byte>>, first: seq<Byte>, middle: seq<seq<Byte>>, last: seq<Byte>)
    ensures (log + [first]) + middle == log + ([first] + middle)
    ensures ((log + [first]) + middle) + [last] == log + ([first] + middle + [last])
  {
  }

  /** `send_trailer` and the wait for its acknowledgement. */
  method SendTrailerAcked(uart: Link) returns (ok: bool)
    modifies uart
    ensures uart.log == old(uart.log) + [TrailerFrame]
    ensures ok == Acked(old(uart.replies)) && uart.replies == Rest(old(uart.replies))
    ensures uart.isOpen == (old(uart.isOpen) && ok)
  {
    SendTrailer(uart);
    ok := AwaitAckOrExit(uart);
  }

  /**
   * The upload at the end of the script: address block, data blocks,
   * trailer, each acknowledged in turn. Returns the exit status: 0 when
   * every block was acknowledged, 1 at the first time-out.
   */
  method Upload(uart: Link, data: seq<Byte>, address: int) returns (status: nat)
    requires uart.isOpen
    modifies uart
    ensures var e := Session(Blocks(data, address), old(uart.replies));
      && uart.log == old(uart.log) + e.log && uart.replies == e.rest
      && (status == 0 <==> e.ok) && (status == 1 <==> !e.ok)
    ensures !uart.isOpen
  {
    ghost var log0, replies0 := uart.log, uart.replies;
    UploadStages(data, address, replies0);
    SendAddressBlock(uart, address);
    var ok := AwaitAckOrExit(uart);
    if !ok {
      return 1;
    }
    ghost var log1, replies1 := uart.log, uart.replies;
    ok := SendData(uart, data);
    DataSessionIsSession(data, 0, replies1);
    ghost var d := Session(Frames(Chunks(data, 0)), replies1);
    LogRegroups(log0, AddressFrame(address), d.log, TrailerFrame);
    if !ok {
      return 1;
    }
    ok := SendTrailerAcked(uart);
    if !ok {
      return 1;
    }
    uart.Close();
    status := 0;
  }
}
