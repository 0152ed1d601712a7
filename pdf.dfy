/** `convertToPdf` of src/pdf.js: the pdfkit document as an object whose
    calls append to a command log, the promise with its chunk buffer as a
    second object, and the conversion itself as a method over both.

    pdfkit is code this model cannot see, so whether one of its calls throws
    is a parameter: a `Fault(at, error)` makes the call that would issue
    command number `at` of the log (counting from 0) throw `error` instead.
    Setting the title metadata is a property assignment and never throws. The stream's events are a
    second parameter, delivered after the synchronous part has run, as
    Node's streams deliver them. */
module Pdf {
  import opened Highlights
  import opened PdfLayout
  import opened PdfStream
  import opened Sequences

  datatype Fault = Fault(at: nat, error: Error)

  /** The log a build leaves behind and the exception it threw, if any. */
  datatype BuildResult = BuildResult(log: seq<Command>, thrown: Option<Error>)

  /** Whether `fault` fires on one of the `n` calls issued after `log`. */
  predicate FiresWithin(fault: Option<Fault>, log: seq<Command>, n: nat) {
    fault.Some? && |log| <= fault.value.at < |log| + n
  }

  /** Issuing `cmds` one call at a time after `log`: the calls before the
      faulty one take effect and the rest are never made. */
  function Emit(log: seq<Command>, cmds: seq<Command>, fault: Option<Fault>): (r: BuildResult)
    ensures r.thrown.None? <==> !FiresWithin(fault, log, |cmds|)
    ensures r.thrown.None? ==> r.log == log + cmds
    ensures r.thrown.Some? ==>
      (r.thrown.value == fault.value.error &&
       |log| <= |r.log| < |log| + |cmds| && r.log == (log + cmds)[..|r.log|])
    ensures r.thrown.Some? ==> |r.log| == fault.value.at
  {
    if FiresWithin(fault, log, |cmds|)
    then BuildResult(log + cmds[..fault.value.at - |log|], Some(fault.value.error))
    else BuildResult(log + cmds, None)
  }

  /** The synchronous part of `convertToPdf`: set the title metadata, write
      every highlight, then call `end`. */
  function Building(hs: seq<Highlight>, fault: Option<Fault>): BuildResult {
    Emit([SetTitle(DocumentTitle)], Body(hs) + [End], fault)
  }

  /** How the returned promise settles: a thrown exception rejects it in the
      `catch`; otherwise the stream's events decide. */
  function Conversion(hs: seq<Highlight>, fault: Option<Fault>, events: seq<Event>): Settlement {
    var b := Building(hs, fault);
    var afterBuild := if b.thrown.Some? then StreamState([], Rejected(b.thrown.value)) else Start;
    Run(afterBuild, events).settlement
  }

  lemma EmitStops(log: seq<Command>, a: seq<Command>, b: seq<Command>, fault: Option<Fault>)
    requires Emit(log, a, fault).thrown.Some?
    ensures Emit(log, a + b, fault) == Emit(log, a, fault)
  {
    assert (a + b)[..fault.value.at - |log|] == a[..fault.value.at - |log|];
  }

  lemma EmitContinues(log: seq<Command>, a: seq<Command>, b: seq<Command>, fault: Option<Fault>)
    requires Emit(log, a, fault).thrown.None?
    ensures Emit(log, a + b, fault) == Emit(log + a, b, fault)
  {
    if FiresWithin(fault, log + a, |b|) {
      assert (log + a) + b[..fault.value.at - |log + a|] == log + (a + b)[..fault.value.at - |log|];
    }
    assert (log + a) + b == log + (a + b);
  }

  /** Issuing `a` then `b`: `b` is issued only when `a` did not throw. */
  lemma EmitThen(log: seq<Command>, a: seq<Command>, b: seq<Command>, fault: Option<Fault>)
    ensures Emit(log, a + b, fault) ==
      if Emit(log, a, fault).thrown.Some? then Emit(log, a, fault) else Emit(log + a, b, fault)
  {
    if Emit(log, a, fault).thrown.Some? {
      EmitStops(log, a, b, fault);
    } else {
      EmitContinues(log, a, b, fault);
    }
  }

  /** A build that throws stops where it threw: it never reaches `end`, and
      its log is a proper beginning of the uninterrupted one. A build that does
      not throw issues the whole layout. */
  lemma BuildingOutcome(hs: seq<Highlight>, fault: Option<Fault>)
    ensures Building(hs, fault).thrown.None? ==> Building(hs, fault).log == Layout(hs)
    ensures Building(hs, fault).thrown.Some? ==>
      |Building(hs, fault).log| < |Layout(hs)| &&
      Building(hs, fault).log == Layout(hs)[..|Building(hs, fault).log|] &&
      Count(Building(hs, fault).log, IsEnd) == 0
    ensures Building(hs, fault).thrown.Some? ==>
      |Building(hs, fault).log| == fault.value.at && Building(hs, fault).thrown.value == fault.value.error
    ensures fault.None? ==> Building(hs, fault) == BuildResult(Layout(hs), None)
  {
    var b := Building(hs, fault);
    assert [SetTitle(DocumentTitle)] + (Body(hs) + [End]) == Layout(hs);
    if b.thrown.Some? {
      var n := |b.log|;
      BodyCounts(hs);
      assert Layout(hs) == [SetTitle(DocumentTitle)] + Body(hs) + [End];
      assert b.log == [SetTitle(DocumentTitle)] + Body(hs)[..n - 1];
      assert Body(hs) == Body(hs)[..n - 1] + Body(hs)[n - 1..];
      CountAppend(Body(hs)[..n - 1], Body(hs)[n - 1..], IsEnd);
      CountAppend([SetTitle(DocumentTitle)], Body(hs)[..n - 1], IsEnd);
    }
  }

  /** An exception thrown while building rejects the promise with that same
      error, whatever the stream emits afterwards. */
  lemma ThrownRejects(hs: seq<Highlight>, fault: Option<Fault>, events: seq<Event>)
    requires Building(hs, fault).thrown.Some?
    ensures Conversion(hs, fault, events) == Rejected(Building(hs, fault).thrown.value)
  {
    RunSettlesOnce(StreamState([], Rejected(Building(hs, fault).thrown.value)), events);
  }

  /** A build that does not throw leaves the promise to the first `end` or
      `error` of the stream: `end` resolves with every chunk delivered before
      it, concatenated in arrival order; `error` rejects with that error. */
  lemma StreamDecides(hs: seq<Highlight>, fault: Option<Fault>, events: seq<Event>, k: nat)
    requires Building(hs, fault).thrown.None?
    requires k < |events| && Terminal(events[k])
    requires forall j :: 0 <= j < k ==> !Terminal(events[j])
    ensures Conversion(hs, fault, events) ==
      if events[k].Finish? then Resolved(Concat(DataChunks(events[..k])))
      else Rejected(events[k].error)
  {
    FirstTerminalDecides(events, k);
  }

  /** The pdfkit document: every call the source makes is appended to `log`. */
  class Document {
    var log: seq<Command>
    const fault: Option<Fault>

    constructor (fault: Option<Fault>)
      ensures log == [] && this.fault == fault
    {
      log := [];
      this.fault := fault;
    }

    /** Sets the title metadata, a property assignment that cannot throw. */
    method SetInfoTitle(title: string)
      modifies this
      ensures log == old(log) + [SetTitle(title)]
    {
      log := log + [SetTitle(title)];
    }

    /** One chained pdfkit call: it either throws or takes effect. */
    method Issue(c: Command) returns (thrown: Option<Error>)
      modifies this
      ensures Emit(old(log), [c], fault) == BuildResult(log, thrown)
    {
      if fault.Some? && fault.value.at == |log| {
        thrown := Some(fault.value.error);
      } else {
        log := log + [c];
        thrown := None;
      }
    }

    method FontSize(size: nat) returns (thrown: Option<Error>)
      modifies this
      ensures Emit(old(log), [Command.FontSize(size)], fault) == BuildResult(log, thrown)
    {
      thrown := Issue(Command.FontSize(size));
    }

    method Font(name: string) returns (thrown: Option<Error>)
      modifies this
      ensures Emit(old(log), [Command.Font(name)], fault) == BuildResult(log, thrown)
    {
      thrown := Issue(Command.Font(name));
    }

    method Text(text: string, options: TextOptions) returns (thrown: Option<Error>)
      modifies this
      ensures Emit(old(log), [Command.Text(text, options)], fault) == BuildResult(log, thrown)
    {
      thrown := Issue(Command.Text(text, options));
    }

    method MoveDown(lines: nat) returns (thrown: Option<Error>)
      modifies this
      ensures Emit(old(log), [Command.MoveDown(lines)], fault) == BuildResult(log, thrown)
    {
      thrown := Issue(Command.MoveDown(lines));
    }

    method End() returns (thrown: Option<Error>)
      modifies this
      ensures Emit(old(log), [Command.End], fault) == BuildResult(log, thrown)
    {
      thrown := Issue(Command.End);
    }
  }

  /** The promise of `convertToPdf` together with its `chunks` array. */
  class PendingPdf {
    var chunks: seq<Chunk>
    var settlement: Settlement

    constructor ()
      ensures State() == Start
    {
      chunks := [];
      settlement := Pending;
    }

    function State(): StreamState
      reads this
    {
      StreamState(chunks, settlement)
    }

    /** Resolves with `bytes`; no effect once the promise has settled. */
    method Resolve(bytes: seq<byte>)
      modifies this
      ensures chunks == old(chunks)
      ensures settlement == Settle(old(settlement), Resolved(bytes))
    {
      if settlement.Pending? {
        settlement := Resolved(bytes);
      }
    }

    /** Rejects with `error`; no effect once the promise has settled. */
    method Reject(error: Error)
      modifies this
      ensures chunks == old(chunks)
      ensures settlement == Settle(old(settlement), Rejected(error))
    {
      if settlement.Pending? {
        settlement := Rejected(error);
      }
    }

    /** The `data` handler: appends the chunk to the buffer. */
    method OnData(chunk: Chunk)
      modifies this
      ensures State() == Step(old(State()), Data(chunk))
    {
      chunks := chunks + [chunk];
    }

    /** The `end` handler: resolves with the buffered chunks joined in order. */
    method OnEnd()
      modifies this
      ensures State() == Step(old(State()), Finish)
    {
      Resolve(Concat(chunks));
    }

    /** The `error` handler: reject with the emitted error. */
    method OnError(error: Error)
      modifies this
      ensures State() == Step(old(State()), Failure(error))
    {
      Reject(error);
    }

    /** The document's event emitter calling the handler registered for `e`. */
    method Deliver(e: Event)
      modifies this
      ensures State() == Step(old(State()), e)
    {
      match e
      case Data(c) => OnData(c);
      case Finish => OnEnd();
      case Failure(err) => OnError(err);
    }
  }

  /** One chained pdfkit statement of the loop body: size, font, then text.
      A call that throws ends the chain. */
  method WriteLine(doc: Document, size: nat, font: string, text: string, options: TextOptions)
    returns (thrown: Option<Error>)
    modifies doc
    ensures BuildResult(doc.log, thrown) == Emit(old(doc.log), Line(size, font, text, options), doc.fault)
  {
    ghost var start := doc.log;
    thrown := doc.FontSize(size);
    EmitThen(start, [Command.FontSize(size)], [Command.Font(font), Command.Text(text, options)], doc.fault);
    if thrown.Some? { return; }
    thrown := doc.Font(font);
    EmitThen(start + [Command.FontSize(size)], [Command.Font(font)], [Command.Text(text, options)], doc.fault);
    if thrown.Some? { return; }
    thrown := doc.Text(text, options);
  }

  /** The body of the `for` loop for one highlight: three chained statements
      for the title, author and text lines, then `moveDown(2)`. A call that
      throws ends it, and the calls after it are not made. */
  method WriteHighlight(doc: Document, h: Highlight) returns (thrown: Option<Error>)
    modifies doc
    ensures BuildResult(doc.log, thrown) == Emit(old(doc.log), HighlightBlock(h), doc.fault)
  {
    ghost var start := doc.log;
    ghost var title := Line(16, "Helvetica-Bold", DisplayTitle(h), Underline);
    ghost var author := Line(12, "Helvetica-Oblique", DisplayAuthor(h), ParagraphGap(10));
    ghost var body := Line(12, "Helvetica", h.text, ParagraphGap(20));
    ghost var gap := [Command.MoveDown(2)];
    BlockLines(h);
    thrown := WriteLine(doc, 16, "Helvetica-Bold", OrElse(h.title, UntitledPlaceholder), Underline);
    EmitThen(start, title, author + (body + gap), doc.fault);
    if thrown.Some? { return; }
    ghost var afterTitle := doc.log;
    thrown := WriteLine(doc, 12, "Helvetica-Oblique", OrElse(h.author, UnknownAuthorPlaceholder), ParagraphGap(10));
    EmitThen(afterTitle, author, body + gap, doc.fault);
    if thrown.Some? { return; }
    ghost var afterAuthor := doc.log;
    thrown := WriteLine(doc, 12, "Helvetica", h.text, ParagraphGap(20));
    EmitThen(afterAuthor, body, gap, doc.fault);
    if thrown.Some? { return; }
    thrown := doc.MoveDown(2);
  }

  /** The body of the `try` block: the title metadata, the `for` loop over
      the highlights in input order, then `doc.end()`. */
  method Build(doc: Document, highlights: seq<Highlight>) returns (thrown: Option<Error>)
    requires doc.log == []
    modifies doc
    ensures BuildResult(doc.log, thrown) == Building(highlights, doc.fault)
  {
    doc.SetInfoTitle(DocumentTitle);
    ghost var init := doc.log;
    thrown := None;
    var i := 0;
    while i < |highlights| && thrown.None?
      invariant 0 <= i <= |highlights|
      invariant init == [SetTitle(DocumentTitle)]
      invariant Emit(init, Body(highlights[..i]), doc.fault) == BuildResult(doc.log, thrown)
    {
      EmitContinues(init, Body(highlights[..i]), HighlightBlock(highlights[i]), doc.fault);
      thrown := WriteHighlight(doc, highlights[i]);
      BodyPrefixStep(highlights, i);
      i := i + 1;
    }
    assert highlights == highlights[..i] + highlights[i..];
    BodyAppend(highlights[..i], highlights[i..]);
    AppendAssoc(Body(highlights[..i]), Body(highlights[i..]), [End]);
    if thrown.None? {
      assert highlights[..i] == highlights;
      EmitContinues(init, Body(highlights), [End], doc.fault);
      thrown := doc.End();
    } else {
      EmitStops(init, Body(highlights[..i]), Body(highlights[i..]) + [End], doc.fault);
    }
  }

  /** The stream emitting `events`, one at a time, to the registered handlers. */
  method DeliverAll(promise: PendingPdf, events: seq<Event>)
    modifies promise
    ensures promise.State() == Run(old(promise.State()), events)
  {
    var j := 0;
    while j < |events|
      invariant 0 <= j <= |events|
      invariant promise.State() == Run(old(promise.State()), events[..j])
    {
      promise.Deliver(events[j]);
      assert events[..j + 1][..j] == events[..j];
      j := j + 1;
    }
    assert events[..j] == events;
  }

  /** The whole conversion of a list of highlights: the commands issued on the document and the
      way the returned promise settles. */
  method ConvertToPdf(highlights: seq<Highlight>, fault: Option<Fault>, events: seq<Event>)
    returns (log: seq<Command>, result: Settlement)
    ensures log == Building(highlights, fault).log
    ensures result == Conversion(highlights, fault, events)
  {
    var promise := new PendingPdf();
    var doc := new Document(fault);
    var thrown := Build(doc, highlights);
    log := doc.log;
    assert promise.State() == Start;
    // the catch block rejects with the exception it caught
    if thrown.Some? {
      promise.Reject(thrown.value);
    }
    ghost var afterBuild := promise.State();
    assert afterBuild == if thrown.Some? then StreamState([], Rejected(thrown.value)) else Start;
    DeliverAll(promise, events);
    result := promise.settlement;
  }
}
