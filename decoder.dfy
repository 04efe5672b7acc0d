/** The report-descriptor decoder (pkg/usbhid/hiddesc/decoder.go): a byte-driven state
    machine that splits the descriptor into short items (section 6.2.2.2 of the USB
    Device Class Definition for HID 1.11) and runs each item's handler once its payload
    is complete, fed by a reader through a fixed buffer. */
module DescriptorDecoder {
  import opened Common
  import opened Tags
  import opened Descriptor
  import opened Commands

  // ---------------------------------------------------------------- the item state machine

  /** reportDescriptorState: the handlers' state plus the item being collected: its tag
      prefix (0 when none), its announced payload length and the payload so far. */
  datatype ParseState = ParseState(desc: DescriptorState, command: Tag, payloadLen: nat,
                                   payload: seq<bv8>)

  const InitialParse := ParseState(InitialState, 0, 0, [])

  /** An item in progress has a handler and is still short of its payload. */
  predicate Pending(ps: ParseState)
  {
    ps.command != 0 ==> HasHandler(ps.command) && |ps.payload| < ps.payloadLen
  }

  /** One iteration of parseBytes on byte b. With no item in progress b is a tag: an
      unknown prefix is an error, otherwise the size code fixes the payload length.
      Otherwise b is appended to the payload. When the payload reaches its length (at
      once for a zero-length item) the handler runs and the item state is cleared. */
  function Step(ps: ParseState, b: bv8): (r: Result<ParseState>)
    requires Pending(ps)
    ensures r.Ok? ==> Pending(r.value)
  {
    var started :-
      if ps.command == 0 then
        var prefix := TagPrefix(b);
        if !HasHandler(prefix) then Err("unknown command code")
        else Ok(ps.(command := prefix, payloadLen := PayloadLen(PayloadSize(b)), payload := []))
      else Ok(ps.(payload := ps.payload + [b]));
    if |started.payload| == started.payloadLen then
      var desc :- Execute(started.command, started.desc, started.payload);
      Ok(ParseState(desc, 0, 0, []))
    else Ok(started)
  }

  /** The state after parseBytes has consumed all of bs, or its first failure. */
  function ParseAll(ps: ParseState, bs: seq<bv8>): (r: Result<ParseState>)
    requires Pending(ps)
    ensures r.Ok? ==> Pending(r.value)
    decreases |bs|
  {
    if bs == [] then Ok(ps)
    else
      var next :- Step(ps, bs[0]);
      ParseAll(next, bs[1..])
  }

  /** How many bytes parseBytes takes from the buffer: all of them, or up to and
      including the byte whose item fails. */
  function Consumed(ps: ParseState, bs: seq<bv8>): (n: nat)
    requires Pending(ps)
    ensures n <= |bs|
    ensures ParseAll(ps, bs).Ok? ==> n == |bs|
    decreases |bs|
  {
    if bs == [] then 0
    else if Step(ps, bs[0]).IsFailure() then 1
    else 1 + Consumed(Step(ps, bs[0]).value, bs[1..])
  }

  /** Parsing two pieces one after the other is parsing them joined: the state machine
      carries everything it needs from one buffer to the next. */
  lemma {:induction false} ParseAllAppend(ps: ParseState, a: seq<bv8>, b: seq<bv8>)
    requires Pending(ps)
    ensures ParseAll(ps, a + b) == if ParseAll(ps, a).Ok? then ParseAll(ParseAll(ps, a).value, b)
                                    else ParseAll(ps, a)
    decreases |a|
  {
    if a == [] {
      assert a + b == b;
    } else {
      assert (a + b)[0] == a[0] && (a + b)[1..] == a[1..] + b;
      var s := Step(ps, a[0]);
      if s.Ok? {
        ParseAllAppend(s.value, a[1..], b);
        assert ParseAll(ps, a + b) == ParseAll(s.value, a[1..] + b);
        assert ParseAll(ps, a) == ParseAll(s.value, a[1..]);
      } else {
        assert ParseAll(ps, a + b) == s.PropagateFailure();
        assert ParseAll(ps, a) == s.PropagateFailure();
      }
    }
  }

  /** A tag byte whose prefix has no handler fails at once. */
  lemma UnknownTagFails(ps: ParseState, b: bv8)
    requires ps.command == 0 && !HasHandler(TagPrefix(b))
    ensures Step(ps, b).Err?
  {
  }

  /** A zero-length item runs its handler on the tag byte itself and leaves no item in
      progress; a longer item waits for its payload. */
  lemma TagStartsItem(ps: ParseState, b: bv8)
    requires ps.command == 0 && HasHandler(TagPrefix(b))
    ensures PayloadSize(b) == 0 ==>
              Step(ps, b) == (var d :- Execute(TagPrefix(b), ps.desc, []); Ok(ParseState(d, 0, 0, [])))
    ensures PayloadSize(b) != 0 ==>
              Step(ps, b) == Ok(ps.(command := TagPrefix(b), payloadLen := PayloadLen(PayloadSize(b)),
                                    payload := []))
  {
  }

  /** Once the tag is in, the handler runs exactly when the payload reaches the announced
      length, and then the item state is back to 0, 0 and empty. */
  lemma PayloadCompletesItem(ps: ParseState, b: bv8)
    requires Pending(ps) && ps.command != 0
    ensures |ps.payload| + 1 == ps.payloadLen ==>
              Step(ps, b) == (var d :- Execute(ps.command, ps.desc, ps.payload + [b]); Ok(ParseState(d, 0, 0, [])))
    ensures |ps.payload| + 1 < ps.payloadLen ==> Step(ps, b) == Ok(ps.(payload := ps.payload + [b]))
  {
  }

  /** The handlers' invariant holds in every state the parser reaches. */
  lemma {:induction false} ParseAllKeepsInv(ps: ParseState, bs: seq<bv8>)
    requires Pending(ps) && Inv(ps.desc)
    ensures ParseAll(ps, bs).Ok? ==> Inv(ParseAll(ps, bs).value.desc)
    decreases |bs|
  {
    if bs != [] {
      var s := Step(ps, bs[0]);
      if s.Ok? {
        var b := bs[0];
        var started := if ps.command == 0
          then ps.(command := TagPrefix(b), payloadLen := PayloadLen(PayloadSize(b)), payload := [])
          else ps.(payload := ps.payload + [b]);
        if |started.payload| == started.payloadLen {
          ExecuteKeepsInv(started.command, started.desc, started.payload);
        }
        ParseAllKeepsInv(s.value, bs[1..]);
      }
    }
  }

  /** descriptor(): the closed top-level collections. */
  function DescriptorOf(ps: ParseState): ReportDescriptor
  {
    ReportDescriptor(ps.desc.collections)
  }

  /** Every collection a decode returns is well formed, so the size and clone lemmas of
      Descriptor apply to it. */
  lemma DecodedWellFormed(bs: seq<bv8>)
    ensures ParseAll(InitialParse, bs).Ok? ==>
              forall i :: 0 <= i < |DescriptorOf(ParseAll(InitialParse, bs).value).collections| ==>
                WellFormed(DescriptorOf(ParseAll(InitialParse, bs).value).collections[i])
  {
    ParseAllKeepsInv(InitialParse, bs);
  }

  // ---------------------------------------------------------------- the reader

  /** The outcome a reader attaches to a read. */
  datatype ReadErr = NoErr | EOF | Fail(msg: string)

  /** One delivery of the reader: bytes, then the error that comes with the last of them. */
  datatype Chunk = Chunk(data: seq<bv8>, err: ReadErr)

  /** Bytes still to deliver, counting one for each chunk so that reading an empty chunk
      also makes progress. */
  function ScriptSize(script: seq<Chunk>): nat
  {
    if script == [] then 0 else |script[0].data| + 1 + ScriptSize(script[1..])
  }

  /** Read into a buffer of length capacity: as much of the current chunk as fits, with
      the chunk's error once the chunk is used up; after the last chunk, 0 bytes and
      EOF. */
  function Read(script: seq<Chunk>, capacity: nat): (r: (seq<bv8>, ReadErr, seq<Chunk>))
    ensures |r.0| <= capacity
    ensures ScriptSize(r.2) <= ScriptSize(script)
    ensures script != [] && (r.0 != [] || r.1 != NoErr) ==> ScriptSize(r.2) < ScriptSize(script)
  {
    if script == [] then ([], EOF, [])
    else
      var c := script[0];
      if capacity >= |c.data| then (c.data, c.err, script[1..])
      else (c.data[..capacity], NoErr, [Chunk(c.data[capacity..], c.err)] + script[1..])
  }

  /** What Decode leaves behind: its result, the reader, the remaining buffer length and
      the stored error. */
  datatype Outcome = Outcome(result: Result<ReportDescriptor>, script: seq<Chunk>, bufCap: nat,
                             err: Option<string>)

  /** The loop of Decode as written, from parser state ps: a read that returns bytes has
      them parsed (a parse failure ends the decode, unstored); a read of zero bytes or
      one with EOF ends it with the collections closed so far; any other read error is
      stored and returned. The buffer shrinks by every byte parsed and is never
      restored. */
  function DecodeLoop(ps: ParseState, script: seq<Chunk>, cap: nat): (o: Outcome)
    requires Pending(ps)
    ensures o.bufCap <= cap
    decreases ScriptSize(script)
  {
    var (bytes, rerr, rest) := Read(script, cap);
    if |bytes| > 0 then
      var p := ParseAll(ps, bytes);
      var cap' := cap - Consumed(ps, bytes);
      if p.Err? then Outcome(Err(p.msg), rest, cap', None)
      else if p.Panic? then Outcome(Panic(p.msg), rest, cap', None)
      else if rerr == EOF then Outcome(Ok(DescriptorOf(p.value)), rest, cap', None)
      else if rerr.Fail? then
        Outcome(Err("failed to read descriptor: " + rerr.msg), rest, cap', Some("failed to read descriptor: " + rerr.msg))
      else DecodeLoop(p.value, rest, cap')
    else Outcome(Ok(DescriptorOf(ps)), rest, cap, None)
  }

  /** Decode as written: a stored error comes back at once with nothing read; otherwise
      the parser starts afresh. */
  function DecodeAsWritten(script: seq<Chunk>, cap: nat, err: Option<string>): (o: Outcome)
  {
    if err.Some? then Outcome(Err(err.value), script, cap, err)
    else DecodeLoop(InitialParse, script, cap)
  }

  /** A stored error is returned by every later Decode, which reads nothing. */
  lemma StoredErrorRepeats(script: seq<Chunk>, cap: nat, e: string)
    ensures DecodeAsWritten(script, cap, Some(e)) == Outcome(Err(e), script, cap, Some(e))
  {
  }

  /** A read that returns bytes together with a failure stores the failure, and the next
      Decode returns it again. */
  lemma ReadFailureIsStored(data: seq<bv8>, msg: string, rest: seq<Chunk>, cap: nat)
    requires 0 < |data| <= cap && ParseAll(InitialParse, data).Ok?
    ensures DecodeAsWritten([Chunk(data, Fail(msg))] + rest, cap, None).err.Some?
    ensures var o := DecodeAsWritten([Chunk(data, Fail(msg))] + rest, cap, None);
            o.result.Err? && DecodeAsWritten(o.script, o.bufCap, o.err).result == o.result
  {
  }

  /** A zero-byte read with EOF ends the decode with the collections closed so far. */
  lemma EndOfInputGivesDescriptor(ps: ParseState, cap: nat)
    requires Pending(ps)
    ensures DecodeLoop(ps, [], cap) == Outcome(Ok(DescriptorOf(ps)), [], cap, None)
  {
  }

  // ---------------------------------------------------------------- the decoder object

  /** DescriptorDecoder: the reader, the stored error, the buffer's remaining length and
      the parser state. */
  class Decoder {
    var script: seq<Chunk>
    var err: Option<string>
    var bufCap: nat
    var state: ParseState

    /** NewDescriptorDecoder with a buffer of bufferSize bytes (1024 unless
        WithBufferSize says otherwise). */
    constructor (reader: seq<Chunk>, bufferSize: nat)
      ensures script == reader && err == None && bufCap == bufferSize && state == InitialParse
    {
      script := reader;
      err := None;
      bufCap := bufferSize;
      state := InitialParse;
    }

    /** parseBytes over the bytes just read into the buffer. */
    method ParseBytes(chunk: seq<bv8>) returns (r: Result<bool>)
      requires Pending(state) && |chunk| <= bufCap
      modifies this
      ensures r.IsFailure() <==> ParseAll(old(state), chunk).IsFailure()
      ensures r.Err? ==> ParseAll(old(state), chunk) == Err(r.msg)
      ensures r.Panic? ==> ParseAll(old(state), chunk) == Panic(r.msg)
      ensures r.Ok? ==> state == ParseAll(old(state), chunk).value
      ensures Pending(state)
      ensures bufCap == old(bufCap) - Consumed(old(state), chunk)
      ensures script == old(script) && err == old(err)
    {
      var i := 0;
      while i < |chunk|
        invariant 0 <= i <= |chunk| && Pending(state)
        invariant ParseAll(old(state), chunk) == ParseAll(state, chunk[i..])
        invariant Consumed(old(state), chunk) == i + Consumed(state, chunk[i..])
        invariant bufCap == old(bufCap) - i
        invariant script == old(script) && err == old(err)
      {
        var b := chunk[i];
        assert chunk[i..][0] == b && chunk[i..][1..] == chunk[i + 1..];
        bufCap := bufCap - 1;
        var next := Step(state, b);
        if next.Err? {
          return Err(next.msg);
        } else if next.Panic? {
          return Panic(next.msg);
        }
        state := next.value;
        i := i + 1;
      }
      return Ok(true);
    }

    /** Decode: the descriptor the reader's bytes describe, as the code is written. */
    method Decode() returns (r: Result<ReportDescriptor>)
      modifies this
      ensures var o := DecodeAsWritten(old(script), old(bufCap), old(err));
              r == o.result && script == o.script && bufCap == o.bufCap && err == o.err
    {
      if err.Some? {
        return Err(err.value);
      }
      state := InitialParse;
      while true
        invariant Pending(state) && err == old(err)
        invariant DecodeAsWritten(old(script), old(bufCap), old(err)) == DecodeLoop(state, script, bufCap)
        decreases ScriptSize(script)
      {
        ghost var ps0, cap0, sc0 := state, bufCap, script;
        var (bytes, rerr, rest) := Read(script, bufCap);
        script := rest;
        if |bytes| > 0 {
          var parsed := ParseBytes(bytes);
          if parsed.IsFailure() {
            return parsed.PropagateFailure();
          }
          assert DecodeLoop(ps0, sc0, cap0) ==
                 if rerr == EOF then Outcome(Ok(DescriptorOf(state)), rest, bufCap, None)
                 else if rerr.Fail? then
                   Outcome(Err("failed to read descriptor: " + rerr.msg), rest, bufCap,
                           Some("failed to read descriptor: " + rerr.msg))
                 else DecodeLoop(state, rest, bufCap);
        }
        if |bytes| == 0 || rerr == EOF {
          return Ok(DescriptorOf(state));
        }
        if rerr.Fail? {
          err := Some("failed to read descriptor: " + rerr.msg);
          return Err(err.value);
        }
      }
    }
  }

  // ---------------------------------------------------------------- what Decode should do

  /** The bytes the reader delivers up to EOF, or its failure. */
  function Delivered(script: seq<Chunk>): (r: Result<seq<bv8>>)
    ensures !r.Panic?
  {
    if script == [] then Ok([])
    else if script[0].err.Fail? then Err("failed to read descriptor: " + script[0].err.msg)
    else if script[0].err == EOF then Ok(script[0].data)
    else
      var rest :- Delivered(script[1..]);
      Ok(script[0].data + rest)
  }

  /** Decode as evidently intended: every delivered byte is parsed, whatever the buffer
      size, and a read failure is reported even when it comes with no bytes. */
  function DecodeBytes(script: seq<Chunk>): (r: Result<ReportDescriptor>)
  {
    var bytes :- Delivered(script);
    var ps :- ParseAll(InitialParse, bytes);
    Ok(DescriptorOf(ps))
  }

  /** The intended decode depends only on the bytes delivered, not on how the reader
      splits them into reads. */
  lemma DecodeBytesIgnoresSplit(a: seq<bv8>, b: seq<bv8>, e: ReadErr, rest: seq<Chunk>)
    ensures DecodeBytes([Chunk(a + b, e)] + rest) == DecodeBytes([Chunk(a, NoErr), Chunk(b, e)] + rest)
  {
    var s1 := [Chunk(a + b, e)] + rest;
    var s2 := [Chunk(a, NoErr), Chunk(b, e)] + rest;
    assert s2[1..] == [Chunk(b, e)] + rest;
    assert s2[1..][1..] == rest && s1[1..] == rest;
    assert Delivered(s2) == (var d :- Delivered(s2[1..]); Ok(a + d));
    if e == NoErr {
      assert Delivered(s2[1..]) == (var d :- Delivered(rest); Ok(b + d));
      assert Delivered(s1) == (var d :- Delivered(rest); Ok((a + b) + d));
      if Delivered(rest).Ok? {
        var d := Delivered(rest).value;
        assert a + (b + d) == (a + b) + d;
      }
    }
  }

  /** The intended decode reads the descriptor of every byte: one collection opened and
      closed gives that collection. */
  lemma DecodeBytesReadsAll()
    ensures DecodeBytes([Chunk([0x09, 0x06, 0xA1, 0x01, 0xC0], EOF)])
            == Ok(ReportDescriptor([Collection(1, 0, 6, [])]))
  {
    var ps0 := InitialParse;
    var ps1 := Step(ps0, 0x09).value;
    assert ps1.command == TagUsage && ps1.payloadLen == 1;
    var ps2 := Step(ps1, 0x06).value;
    ByteValueInt(6);
    assert LittleEndian([6]) == 6;
    assert ps2.desc.local.usage == [6];
    var ps3 := Step(ps2, 0xA1).value;
    var ps4 := Step(ps3, 0x01).value;
    assert ps4.desc.collection == Some(Collection(1, 0, 6, []));
    var ps5 := Step(ps4, 0xC0).value;
    assert ps5.desc.collections == [Collection(1, 0, 6, [])];
    var bs: seq<bv8> := [0x09, 0x06, 0xA1, 0x01, 0xC0];
    assert bs[1..][1..][1..][1..][1..] == [];
  }

  /** As written, the buffer given to Read is the part parseBytes has not consumed, and
      it is never restored: with a 4-byte buffer the last byte of the same descriptor is
      never read and Decode returns no collection, without an error. With the default
      1024-byte buffer the same happens to every byte past the 1024th. */
  lemma DecodeTruncatesAtBuffer()
    ensures DecodeAsWritten([Chunk([0x09, 0x06, 0xA1, 0x01, 0xC0], EOF)], 4, None).result
            == Ok(ReportDescriptor([]))
  {
    var bs: seq<bv8> := [0x09, 0x06, 0xA1, 0x01, 0xC0];
    var head: seq<bv8> := [0x09, 0x06, 0xA1, 0x01];
    var first := Read([Chunk(bs, EOF)], 4);
    assert first.0 == head && first.1 == NoErr && first.2 == [Chunk([0xC0], EOF)];
    OpenCollectionBytes();
    var ps := ParseAll(InitialParse, head).value;
    assert Consumed(InitialParse, head) == 4;
    assert DecodeLoop(InitialParse, [Chunk(bs, EOF)], 4) == DecodeLoop(ps, [Chunk([0xC0], EOF)], 0);
  }

  /** Usage 6 and Collection 1 leave one collection open and none closed. */
  lemma OpenCollectionBytes()
    ensures ParseAll(InitialParse, [0x09, 0x06, 0xA1, 0x01]).Ok?
    ensures ParseAll(InitialParse, [0x09, 0x06, 0xA1, 0x01]).value.desc.collections == []
  {
    var ps0 := InitialParse;
    var ps1 := Step(ps0, 0x09).value;
    var ps2 := Step(ps1, 0x06).value;
    var ps3 := Step(ps2, 0xA1).value;
    var ps4 := Step(ps3, 0x01).value;
    assert ps4.desc.collections == [];
    var head: seq<bv8> := [0x09, 0x06, 0xA1, 0x01];
    assert head[1..][1..][1..][1..] == [];
  }

  /** As written, a read that fails without delivering bytes is taken for the end of the
      descriptor: Decode succeeds and nothing is stored, where the failure should be
      reported. */
  lemma ZeroByteFailureIgnored(cap: nat)
    ensures DecodeAsWritten([Chunk([], Fail("device gone"))], cap, None)
            == Outcome(Ok(ReportDescriptor([])), [], cap, None)
    ensures DecodeBytes([Chunk([], Fail("device gone"))]).Err?
  {
  }
}
