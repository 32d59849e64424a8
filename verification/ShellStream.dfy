/** The read loop of 2/solution.c (214-228): feed a chunk, pop until there is no line. */
module ShellStream {
  import opened ShellParser

  /** What the loop does with a popped line or error. */
  datatype Event = Execute(line: Line) | Report(error: Error)

  /** What a loop did, and the text left in the buffer; a failed assert ends the program. */
  datatype Outcome = Waiting(events: seq<Event>, rest: string) | Crashed(events: seq<Event>)

  function Before(events: seq<Event>, o: Outcome): Outcome {
    o.(events := events + o.events)
  }

  lemma BeforeJoins(a: seq<Event>, b: seq<Event>, o: Outcome)
    ensures Before(a, Before(b, o)) == Before(a + b, o)
    ensures Before([], o) == o
  {
    assert a + (b + o.events) == a + b + o.events;
    assert [] + o.events == o.events;
  }

  /** Lines 217-227: pop until "no error, no line". */
  function Drain(buffer: string): Outcome
    decreases |buffer|
  {
    PopProgress(buffer);
    match PopNext(buffer)
    case NoLine => Waiting([], buffer)
    case Aborted => Crashed([])
    case Parsed(line, used) => Before([Execute(line)], Drain(buffer[used..]))
    case Failed(error, used) => Before([Report(error)], Drain(buffer[used..]))
  }

  /** Lines 214-228: the loop over the chunks that read() returns, with `buffer` unparsed. */
  function Stream(buffer: string, chunks: seq<string>): Outcome
    decreases |chunks|
  {
    if chunks == [] then Waiting([], buffer)
    else
      match Drain(buffer + chunks[0])
      case Crashed(events) => Crashed(events)
      case Waiting(events, rest) => Before(events, Stream(rest, chunks[1..]))
  }

  function Concat(chunks: seq<string>): string {
    if chunks == [] then [] else chunks[0] + Concat(chunks[1..])
  }

  // ---- what draining does, in terms of single pops ----

  /** What the loop does after a pop, and how much of the buffer it has consumed. */
  predicate Pops(b: string, event: Event, used: nat) {
    match event
    case Execute(line) => PopNext(b) == Parsed(line, used)
    case Report(error) => PopNext(b) == Failed(error, used)
  }

  /** The piece from cut k on is one pop with event k. */
  ghost predicate Piece(b: string, cuts: seq<nat>, events: seq<Event>, k: nat)
    requires |cuts| == |events| + 1 && k < |events|
  {
    cuts[k] < cuts[k + 1] <= |b| && Pops(b[cuts[k]..], events[k], cuts[k + 1] - cuts[k])
  }

  /** b is cut at the positions `cuts`, the first of them 0, and each piece is one pop. */
  ghost predicate CutInto(b: string, cuts: seq<nat>, events: seq<Event>) {
    |cuts| == |events| + 1 && cuts[0] == 0 && forall k :: 0 <= k < |events| ==> Piece(b, cuts, events, k)
  }

  /** The text behind the last cut. */
  function Remainder(b: string, cuts: seq<nat>): string
    requires cuts != [] && cuts[|cuts| - 1] <= |b|
  {
    b[cuts[|cuts| - 1]..]
  }

  /** The loop does the events, one for each line or error popped in turn, and ends where no
      line is complete or an assert fails. */
  ghost predicate DrainsTo(b: string, o: Outcome, cuts: seq<nat>) {
    CutInto(b, cuts, o.events) && cuts[|cuts| - 1] <= |b| &&
    match o
    case Waiting(_, rest) => rest == Remainder(b, cuts) && PopNext(rest).NoLine?
    case Crashed(_) => PopNext(Remainder(b, cuts)).Aborted?
  }

  function Shifted(cuts: seq<nat>, base: nat): (r: seq<nat>)
    ensures |r| == |cuts| && forall k :: 0 <= k < |cuts| ==> r[k] == cuts[k] + base
  {
    seq(|cuts|, k requires 0 <= k < |cuts| => cuts[k] + base)
  }

  lemma PieceShifted(b: string, used: nat, cuts: seq<nat>, event: Event, events: seq<Event>, k: nat)
    requires used <= |b| && |cuts| == |events| + 1 && k < |events| && Piece(b[used..], cuts, events, k)
    ensures Piece(b, [0] + Shifted(cuts, used), [event] + events, k + 1)
  {
    hide PopNext;
    assert b[used..][cuts[k]..] == b[cuts[k] + used..];
  }

  /** The first pop, and then the rest of the buffer. */
  lemma CutFirst(b: string, event: Event, used: nat, cuts: seq<nat>, o: Outcome) returns (all: seq<nat>)
    requires 0 < used <= |b| && Pops(b, event, used) && DrainsTo(b[used..], o, cuts)
    ensures DrainsTo(b, Before([event], o), all)
  {
    hide PopNext, Piece;
    all := [0] + Shifted(cuts, used);
    var events := [event] + o.events;
    forall k | 0 <= k < |events| ensures Piece(b, all, events, k) {
      if k == 0 {
        FirstPiece(b, all, events);
      } else {
        PieceShifted(b, used, cuts, event, o.events, k - 1);
      }
    }
    assert Remainder(b, all) == Remainder(b[used..], cuts);
  }

  lemma FirstPiece(b: string, cuts: seq<nat>, events: seq<Event>)
    requires |cuts| == |events| + 1 && events != [] && cuts[0] == 0 < cuts[1] <= |b| && Pops(b, events[0], cuts[1])
    ensures Piece(b, cuts, events, 0)
  {
    assert b[0..] == b;
  }

  lemma NoCut(b: string)
    requires PopNext(b).NoLine? || PopNext(b).Aborted?
    ensures DrainsTo(b, if PopNext(b).NoLine? then Waiting([], b) else Crashed([]), [0])
  {
    hide PopNext;
    assert b[0..] == b;
  }

  lemma {:induction false} DrainCuts(b: string) returns (cuts: seq<nat>)
    ensures DrainsTo(b, Drain(b), cuts)
    decreases |b|
  {
    hide PopNext, DrainsTo;
    PopProgress(b);
    match PopNext(b)
    case Parsed(line, used) =>
      var more := DrainCuts(b[used..]);
      cuts := CutFirst(b, Execute(line), used, more, Drain(b[used..]));
    case Failed(error, used) =>
      var more := DrainCuts(b[used..]);
      cuts := CutFirst(b, Report(error), used, more, Drain(b[used..]));
    case _ =>
      NoCut(b);
      cuts := [0];
  }

  /** From one cut there is one way to go on. */
  lemma SamePiece(b: string, a: seq<nat>, o: Outcome, c: seq<nat>, p: Outcome, k: nat)
    requires DrainsTo(b, o, a) && DrainsTo(b, p, c) && k < |o.events| && k <= |p.events| && a[k] == c[k]
    ensures k < |p.events| && a[k + 1] == c[k + 1] && o.events[k] == p.events[k]
  {
    hide PopNext;
    assert Piece(b, a, o.events, k);
    if k < |p.events| {
      assert Piece(b, c, p.events, k);
    }
  }

  lemma {:induction false} CutsAgree(b: string, a: seq<nat>, o: Outcome, c: seq<nat>, p: Outcome, n: nat)
    requires DrainsTo(b, o, a) && DrainsTo(b, p, c) && n <= |o.events|
    ensures n <= |p.events| && |a| == |o.events| + 1 && |c| == |p.events| + 1 && a[n] == c[n]
    ensures o.events[..n] == p.events[..n]
  {
    hide PopNext, Piece;
    if n > 0 {
      CutsAgree(b, a, o, c, p, n - 1);
      SamePiece(b, a, o, c, p, n - 1);
      assert o.events[..n] == o.events[..n - 1] + [o.events[n - 1]];
      assert p.events[..n] == p.events[..n - 1] + [p.events[n - 1]];
    }
  }

  lemma SameOutcome(b: string, a: seq<nat>, o: Outcome, c: seq<nat>, p: Outcome)
    requires DrainsTo(b, o, a) && DrainsTo(b, p, c)
    ensures o == p
  {
    hide PopNext, Piece;
    CutsAgree(b, a, o, c, p, |o.events|);
    CutsAgree(b, c, p, a, o, |p.events|);
    assert o.events == o.events[..|o.events|] && p.events == p.events[..|p.events|];
    assert Remainder(b, a) == Remainder(b, c);
  }

  /** The loop over one buffer executes every popped line and reports every error, in their
      order, each from where the last pop ended, until nothing complete is left or an assert
      fails; and it does nothing else. */
  lemma DrainIff(b: string, o: Outcome)
    ensures Drain(b) == o <==> exists cuts :: DrainsTo(b, o, cuts)
  {
    hide PopNext, Drain, DrainsTo;
    var cuts := DrainCuts(b);
    if c :| DrainsTo(b, o, c) {
      SameOutcome(b, cuts, Drain(b), c, o);
    }
  }

  // ---- text that arrives later ----

  /** Draining stops with nothing to pop. */
  lemma {:induction false} DrainedIsStuck(buffer: string)
    ensures var o := Drain(buffer); o.Waiting? ==> PopNext(o.rest) == NoLine
    decreases |buffer|
  {
    PopProgress(buffer);
    match PopNext(buffer)
    case Parsed(_, used) => DrainedIsStuck(buffer[used..]);
    case Failed(_, used) => DrainedIsStuck(buffer[used..]);
    case _ =>
  }

  lemma {:induction false} DrainShrinks(buffer: string)
    ensures var o := Drain(buffer); o.Waiting? ==> |o.rest| <= |buffer|
    decreases |buffer|
  {
    PopProgress(buffer);
    match PopNext(buffer)
    case Parsed(_, used) => DrainShrinks(buffer[used..]);
    case Failed(_, used) => DrainShrinks(buffer[used..]);
    case _ =>
  }

  /** Text that arrives later is handled as if it had been there from the start. */
  lemma {:induction false} DrainAppend(a: string, b: string)
    ensures Drain(a + b) ==
      match Drain(a)
      case Crashed(events) => Crashed(events)
      case Waiting(events, rest) => Before(events, Drain(rest + b))
    decreases |a|
  {
    PopProgress(a);
    match PopNext(a)
    case NoLine => BeforeJoins([], [], Drain(a + b));
    case Aborted => PopStable(a, b);
    case Parsed(line, used) => DrainStep(a, b, Execute(line), used);
    case Failed(error, used) => DrainStep(a, b, Report(error), used);
  }

  lemma {:induction false} DrainStep(a: string, b: string, event: Event, used: nat)
    requires 0 < used <= |a|
    requires match PopNext(a)
      case Parsed(line, u) => u == used && event == Execute(line)
      case Failed(error, u) => u == used && event == Report(error)
      case _ => false
    ensures Drain(a + b) ==
      match Drain(a)
      case Crashed(events) => Crashed(events)
      case Waiting(events, rest) => Before(events, Drain(rest + b))
    decreases |a|, 0
  {
    PopStable(a, b);
    assert (a + b)[used..] == a[used..] + b;
    DrainAppend(a[used..], b);
    match Drain(a[used..])
    case Crashed(_) =>
    case Waiting(events, rest) => BeforeJoins([event], events, Drain(rest + b));
  }

  lemma {:induction false} StreamFrom(buffer: string, chunks: seq<string>)
    requires PopNext(buffer) == NoLine
    ensures Stream(buffer, chunks) == Drain(buffer + Concat(chunks))
    decreases |chunks|
  {
    if chunks == [] {
      assert buffer + [] == buffer;
    } else {
      var next := buffer + chunks[0];
      assert buffer + Concat(chunks) == next + Concat(chunks[1..]);
      DrainAppend(next, Concat(chunks[1..]));
      match Drain(next)
      case Crashed(_) =>
      case Waiting(events, rest) =>
        DrainedIsStuck(next);
        StreamFrom(rest, chunks[1..]);
    }
  }

  /** Streaming is batch processing: however the input is cut into chunks, the same lines
      are executed, the same errors reported and the same text is left over (or the same
      assert fails at the same point) as when all of it is fed at once. */
  lemma StreamingIsBatch(chunks: seq<string>)
    ensures Stream("", chunks) == Drain(Concat(chunks))
  {
    assert "" + Concat(chunks) == Concat(chunks);
    StreamFrom("", chunks);
  }
}
