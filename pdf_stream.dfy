/** The promise returned by `convertToPdf` in src/pdf.js as a state machine
    fed by the document stream's events: `data` chunks are collected in an
    array, `end` resolves with their concatenation, `error` rejects, and a
    promise that has settled ignores every later resolve or reject. */
module PdfStream {
  import opened Sequences

  type byte = b: int | 0 <= b < 256

  /** One `data` chunk: opaque bytes produced by pdfkit. */
  type Chunk = seq<byte>

  /** An error object, thrown or emitted. Errors are compared by value, so
      two distinct error objects with the same message are equal here. */
  datatype Error = Error(message: string)

  /** What the document stream emits. */
  datatype Event = Data(chunk: Chunk) | Finish | Failure(error: Error)

  datatype Settlement = Pending | Resolved(bytes: seq<byte>) | Rejected(error: Error)

  /** The `chunks` array together with the state of the promise. */
  datatype StreamState = StreamState(chunks: seq<Chunk>, settlement: Settlement)

  const Start := StreamState([], Pending)

  /** The bytes of all chunks, joined in order, as `Buffer.concat` joins them. */
  function Concat(chunks: seq<Chunk>): seq<byte> {
    if chunks == [] then [] else Concat(chunks[..|chunks| - 1]) + chunks[|chunks| - 1]
  }

  /** A one-shot settle: only a pending promise changes. */
  function Settle(s: Settlement, outcome: Settlement): Settlement {
    if s.Pending? then outcome else s
  }

  /** The effect of one event on the handlers registered by `convertToPdf`. */
  function Step(s: StreamState, e: Event): StreamState {
    match e
    case Data(c) => s.(chunks := s.chunks + [c])
    case Finish => s.(settlement := Settle(s.settlement, Resolved(Concat(s.chunks))))
    case Failure(err) => s.(settlement := Settle(s.settlement, Rejected(err)))
  }

  /** The effect of a sequence of events, delivered in order. */
  function Run(s: StreamState, evs: seq<Event>): StreamState {
    if evs == [] then s else Step(Run(s, evs[..|evs| - 1]), evs[|evs| - 1])
  }

  /** The chunks of the `data` events of `evs`, in arrival order. */
  function DataChunks(evs: seq<Event>): seq<Chunk> {
    if evs == [] then []
    else DataChunks(evs[..|evs| - 1]) + (if evs[|evs| - 1].Data? then [evs[|evs| - 1].chunk] else [])
  }

  predicate Terminal(e: Event) { !e.Data? }

  /** One event: a `data` chunk is pushed and nothing else changes; `end`
      and `error` leave the chunks alone and settle only a pending promise. */
  lemma StepEffect(s: StreamState, e: Event)
    ensures Step(s, e).chunks == if e.Data? then s.chunks + [e.chunk] else s.chunks
    ensures e.Data? || !s.settlement.Pending? ==> Step(s, e).settlement == s.settlement
    ensures s.settlement.Pending? && e.Finish? ==> Step(s, e).settlement == Resolved(Concat(s.chunks))
    ensures s.settlement.Pending? && e.Failure? ==> Step(s, e).settlement == Rejected(e.error)
  {
  }

  lemma {:induction false} ConcatAppend(a: seq<Chunk>, b: seq<Chunk>)
    ensures Concat(a + b) == Concat(a) + Concat(b)
  {
    if b == [] {
      assert a + b == a;
    } else {
      var b' := b[..|b| - 1];
      assert (a + b)[..|a + b| - 1] == a + b';
      assert (a + b)[|a + b| - 1] == b[|b| - 1];
      ConcatAppend(a, b');
      AppendAssoc(Concat(a), Concat(b'), b[|b| - 1]);
    }
  }

  /** Arrival order: the `i`-th chunk sits in the result right after all
      chunks that arrived before it and right before all that came after it. */
  lemma ConcatSingle(c: Chunk)
    ensures Concat([c]) == c
  {
    var single: seq<Chunk> := [c];
    assert single[..0] == [];
  }

  lemma {:induction false} ConcatChunkAt(cs: seq<Chunk>, i: nat)
    requires i < |cs|
    ensures Concat(cs) == Concat(cs[..i]) + cs[i] + Concat(cs[i + 1..])
  {
    var before, after := cs[..i], cs[i + 1..];
    assert cs == (before + [cs[i]]) + after;
    ConcatAppend(before + [cs[i]], after);
    ConcatAppend(before, [cs[i]]);
    ConcatSingle(cs[i]);
  }

  lemma {:induction false} RunAppend(s: StreamState, a: seq<Event>, b: seq<Event>)
    ensures Run(s, a + b) == Run(Run(s, a), b)
  {
    if b == [] {
      assert a + b == a;
    } else {
      assert (a + b)[..|a + b| - 1] == a + b[..|b| - 1];
      RunAppend(s, a, b[..|b| - 1]);
    }
  }

  lemma RunOne(s: StreamState, e: Event)
    ensures Run(s, [e]) == Step(s, e)
  {
    assert [e][..0] == [];
  }

  /** Every chunk is pushed, whether or not the promise has settled. */
  lemma {:induction false} RunCollectsChunks(s: StreamState, evs: seq<Event>)
    ensures Run(s, evs).chunks == s.chunks + DataChunks(evs)
  {
    if evs != [] {
      RunCollectsChunks(s, evs[..|evs| - 1]);
    }
  }

  /** A settled promise stays as it is, whatever the stream emits afterwards. */
  lemma {:induction false} RunSettlesOnce(s: StreamState, evs: seq<Event>)
    requires !s.settlement.Pending?
    ensures Run(s, evs).settlement == s.settlement
  {
    if evs != [] {
      RunSettlesOnce(s, evs[..|evs| - 1]);
    }
  }

  /** Without `end` or `error` the promise stays pending. */
  lemma {:induction false} RunStaysPending(s: StreamState, evs: seq<Event>)
    requires s.settlement.Pending?
    requires forall j :: 0 <= j < |evs| ==> !Terminal(evs[j])
    ensures Run(s, evs).settlement.Pending?
  {
    if evs != [] {
      RunStaysPending(s, evs[..|evs| - 1]);
    }
  }

  /** The first `end` or `error` decides the promise: `end` resolves with the
      concatenation of every chunk that arrived before it, in arrival order;
      `error` rejects with that same error. */
  lemma FirstTerminalDecides(evs: seq<Event>, k: nat)
    requires k < |evs| && Terminal(evs[k])
    requires forall j :: 0 <= j < k ==> !Terminal(evs[j])
    ensures Run(Start, evs).settlement ==
      if evs[k].Finish? then Resolved(Concat(DataChunks(evs[..k]))) else Rejected(evs[k].error)
  {
    var before := evs[..k];
    RunStaysPending(Start, before);
    RunCollectsChunks(Start, before);
    var decided := Step(Run(Start, before), evs[k]);
    RunOne(Run(Start, before), evs[k]);
    RunAppend(Start, before, [evs[k]]);
    assert evs == (before + [evs[k]]) + evs[k + 1..];
    RunAppend(Start, before + [evs[k]], evs[k + 1..]);
    RunSettlesOnce(decided, evs[k + 1..]);
    assert Run(Start, before).chunks == DataChunks(before);
    assert Run(Start, evs) == Run(decided, evs[k + 1..]);
  }
}
