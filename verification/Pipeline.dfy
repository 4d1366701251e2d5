/** The replay pipeline of `main`: a parser thread and a book thread around the ring, interleaved at
    the level of single loads and stores. */
module Pipelines {
  import opened Machine
  import opened Bytes
  import opened Framing
  import opened Messages
  import opened Markets
  import opened Spsc
  import opened OrderBooks

  type Ring = Queue<ParsedMessage>

  datatype ParserPc = Reading | Sending(msg: ParsedMessage) | StoringParsed | StoringDone | ParserExited

  datatype BookPc =
    Polling | Applying(msg: ParsedMessage) | LoadingDone | LoadingHead | LoadingTail(h: nat) | StoringBooked | BookExited

  datatype ParserThread = ParserThread(pc: ParserPc, pos: nat, parsed: nat, msgsParsed: nat, done: bool)

  datatype BookThread = BookThread(
    pc: BookPc, booked: nat, msgsBooked: nat, dispatched: seq<ParsedMessage>, market: Market)

  /** `doneFirst` says that the book thread, after a failed pop, reads `parse_done` before it asks
      `empty()`, as the program does. */
  datatype Sys = Sys(doneFirst: bool, buf: seq<u8>, q: Ring, parser: ParserThread, book: BookThread)

  predicate Starts(s: Sys) {
    && Initial(s.q)
    && s.parser == ParserThread(Reading, 0, 0, 0, false)
    && s.book == BookThread(Polling, 0, 0, [], FRESH)
  }

  // ----- the parser thread

  datatype ParserAct = ReadFrame | Send(push: PushAction<ParsedMessage>) | StoreParsed | StoreDone

  predicate CanParse(s: Sys, a: ParserAct) {
    match a
    case ReadFrame => s.parser.pc.Reading?
    case Send(p) => s.parser.pc.Sending? && CanPush(s.q, p) && (p.BeginPush? ==> p.item == s.parser.pc.msg)
    case StoreParsed => s.parser.pc.StoringParsed?
    case StoreDone => s.parser.pc.StoringDone?
  }

  /** A push that finds the ring full leaves the thread where it is: it spins. */
  function Parsed(s: Sys, a: ParserAct): Sys
    requires s.q.Capacity() >= 1 && CanParse(s, a)
  {
    match a
    case ReadFrame =>
      var (frame, next) := Next(s.buf, s.parser.pos);
      s.(parser := s.parser.(pos := next,
                             pc := if frame.None? then StoringParsed else Sending(ParseMessage(frame.value))))
    case Send(p) =>
      s.(q := Push(s.q, p),
         parser := if p.StoreTail? then s.parser.(pc := Reading, parsed := s.parser.parsed + 1) else s.parser)
    case StoreParsed => s.(parser := s.parser.(msgsParsed := s.parser.parsed, pc := StoringDone))
    case StoreDone => s.(parser := s.parser.(done := true, pc := ParserExited))
  }

  // ----- the book thread

  datatype BookAct =
    | Poll(pop: PopAction)
    | Dispatch
    | LoadDone(seen: bool)
    | EmptyLoadHead
    | EmptyLoadTail(pushes: nat)
    | StoreBooked

  predicate CanBook(s: Sys, a: BookAct) {
    match a
    case Poll(p) => s.book.pc.Polling? && CanPop(s.q, p)
    case Dispatch => s.book.pc.Applying?
    case LoadDone(seen) => s.book.pc.LoadingDone? && (seen ==> s.parser.done)
    case EmptyLoadHead => s.book.pc.LoadingHead?
    case EmptyLoadTail(pushes) => s.book.pc.LoadingTail? && s.q.seenPushes <= pushes <= |s.q.pushed|
    case StoreBooked => s.book.pc.StoringBooked?
  }

  /** Where the book thread goes after a step of `try_pop`. */
  function AfterPoll(s: Sys, p: PopAction): BookPc
    requires s.q.Capacity() >= 1 && CanPop(s.q, p)
  {
    match p
    case StoreHead => Applying(s.q.consumer.out)
    case LoadTail(pushes) =>
      if !ReadsEmpty(s.q, pushes) then Polling
      else if s.doneFirst then LoadingDone else LoadingHead
    case _ => Polling
  }

  /** Reading `parse_done == true` synchronizes with its release store, so the book thread then knows
      every push. */
  function Booked(s: Sys, a: BookAct): Sys
    requires s.q.Capacity() >= 1 && CanBook(s, a)
  {
    match a
    case Poll(p) => s.(q := Pop(s.q, p), book := s.book.(pc := AfterPoll(s, p)))
    case Dispatch =>
      s.(book := BookThread(Polling, s.book.booked + 1, s.book.msgsBooked,
                            s.book.dispatched + [s.book.pc.msg], Step(s.book.market, Route(s.book.pc.msg))))
    case LoadDone(seen) =>
      if !seen then s.(book := s.book.(pc := Polling))
      else s.(q := s.q.(seenPushes := |s.q.pushed|),
              book := s.book.(pc := if s.doneFirst then LoadingHead else StoringBooked))
    case EmptyLoadHead => s.(book := s.book.(pc := LoadingTail(s.q.head)))
    case EmptyLoadTail(pushes) =>
      s.(q := s.q.(seenPushes := pushes),
         book := s.book.(pc := if s.book.pc.h != IndexOf(s.q, pushes) then Polling
                               else if s.doneFirst then StoringBooked else LoadingDone))
    case StoreBooked => s.(book := s.book.(msgsBooked := s.book.booked, pc := BookExited))
  }

  // ----- interleavings

  datatype Act = ByParser(p: ParserAct) | ByBook(b: BookAct)

  predicate CanAct(s: Sys, a: Act) {
    && s.q.Capacity() >= 1
    && match a
       case ByParser(p) => CanParse(s, p)
       case ByBook(b) => CanBook(s, b)
  }

  function Acted(s: Sys, a: Act): Sys
    requires CanAct(s, a)
  {
    match a
    case ByParser(p) => Parsed(s, p)
    case ByBook(b) => Booked(s, b)
  }

  ghost predicate Execution(s: Sys, acts: seq<Act>, s': Sys)
    decreases |acts|
  {
    if acts == [] then s' == s else CanAct(s, acts[0]) && Execution(Acted(s, acts[0]), acts[1..], s')
  }

  // ----- the invariant

  function InHand(t: ParserThread): seq<ParsedMessage> {
    if t.pc.Sending? then [t.pc.msg] else []
  }

  function Unread(buf: seq<u8>, t: ParserThread): seq<ParsedMessage> {
    if t.pc.Reading? || t.pc.Sending? then ParseAll(Frames(buf, t.pos)) else []
  }

  /** The stream is what was pushed, what is in hand, and what is still to be read. */
  ghost predicate ParserInv(buf: seq<u8>, pushed: seq<ParsedMessage>, producer: PushState<ParsedMessage>,
                            t: ParserThread)
  {
    && ParseAll(Frames(buf, 0)) == pushed + InHand(t) + Unread(buf, t)
    && (if t.pc.Sending? then producer.PushIdle? || producer.item == t.pc.msg else producer.PushIdle?)
    && t.parsed == |pushed|
    && (t.pc.StoringDone? || t.pc.ParserExited? ==> t.msgsParsed == t.parsed)
    && (t.done <==> t.pc.ParserExited?)
  }

  function Taken(t: BookThread): seq<ParsedMessage> {
    t.dispatched + (if t.pc.Applying? then [t.pc.msg] else [])
  }

  ghost predicate BookInv(t: BookThread, q: Ring) {
    && q.popped == Taken(t)
    && t.booked == |t.dispatched|
    && (!t.pc.Polling? ==> q.consumer.PopIdle?)
    && t.market == Run(FRESH, RouteAll(t.dispatched))
    && (t.pc.LoadingTail? ==> t.pc.h == q.head)
    && (t.pc.BookExited? ==> t.msgsBooked == t.booked)
  }

  /** What reading `parse_done` first buys: past that read nothing more is pushed and nothing that was
      pushed is unknown, so an empty ring is empty for good. */
  ghost predicate DoneInv(s: Sys) {
    s.doneFirst ==>
      && (s.book.pc.LoadingHead? || s.book.pc.LoadingTail? ==> s.parser.done && s.q.seenPushes == |s.q.pushed|)
      && (s.book.pc.StoringBooked? || s.book.pc.BookExited? ==> s.parser.done && |s.q.popped| == |s.q.pushed|)
  }

  ghost predicate Inv(s: Sys) {
    && QueueOK(s.q)
    && ParserInv(s.buf, s.q.pushed, s.q.producer, s.parser)
    && BookInv(s.book, s.q)
    && DoneInv(s)
  }

  lemma StartInv(s: Sys)
    requires Starts(s)
    ensures Inv(s)
  {
    InitialOK(s.q);
    assert RouteAll([]) == [];
  }

  lemma ReadInv(buf: seq<u8>, pushed: seq<ParsedMessage>, producer: PushState<ParsedMessage>, t: ParserThread)
    requires ParserInv(buf, pushed, producer, t) && t.pc.Reading?
    ensures var (frame, next) := Next(buf, t.pos);
      ParserInv(buf, pushed, producer,
                t.(pos := next, pc := if frame.None? then StoringParsed else Sending(ParseMessage(frame.value))))
  {
    var (frame, next) := Next(buf, t.pos);
    if frame.Some? {
      ParseAllCons(Frames(buf, t.pos));
      assert Frames(buf, t.pos)[1..] == Frames(buf, next);
      Regroup(pushed, [ParseMessage(frame.value)], ParseAll(Frames(buf, next)));
    }
  }

  lemma SendInv(buf: seq<u8>, q: Ring, t: ParserThread, p: PushAction<ParsedMessage>)
    requires QueueOK(q) && ParserInv(buf, q.pushed, q.producer, t) && t.pc.Sending?
    requires CanPush(q, p) && (p.BeginPush? ==> p.item == t.pc.msg)
    ensures QueueOK(Push(q, p))
    ensures var t' := if p.StoreTail? then t.(pc := Reading, parsed := t.parsed + 1) else t;
      ParserInv(buf, Push(q, p).pushed, Push(q, p).producer, t')
  {
    PushKeeps(q, p);
    if p.StoreTail? {
      assert Push(q, p).pushed == q.pushed + InHand(t);
      assert q.pushed + InHand(t) + [] == q.pushed + InHand(t);
    }
  }

  lemma ParserKeeps(s: Sys, a: ParserAct)
    requires Inv(s) && CanParse(s, a)
    ensures Inv(Parsed(s, a))
  {
    match a
    case ReadFrame => ReadInv(s.buf, s.q.pushed, s.q.producer, s.parser);
    case Send(p) => SendInv(s.buf, s.q, s.parser, p);
    case StoreParsed =>
    case StoreDone =>
  }

  /** Learning of more pushes. */
  lemma LearnPushes(q: Ring, pushes: nat)
    requires QueueOK(q) && q.consumer.PopIdle? && q.seenPushes <= pushes <= |q.pushed|
    ensures QueueOK(q.(seenPushes := pushes))
  {
    SameRing(q, q.(seenPushes := pushes));
  }

  lemma DispatchInv(t: BookThread, q: Ring)
    requires BookInv(t, q) && t.pc.Applying?
    ensures BookInv(BookThread(Polling, t.booked + 1, t.msgsBooked, t.dispatched + [t.pc.msg],
                               Step(t.market, Route(t.pc.msg))), q)
  {
    var routed := RouteAll(t.dispatched);
    RouteAllSnoc(t.dispatched, t.pc.msg);
    assert (routed + [Route(t.pc.msg)])[..|routed|] == routed;
  }

  lemma BookKeeps(s: Sys, a: BookAct)
    requires Inv(s) && CanBook(s, a)
    ensures Inv(Booked(s, a))
  {
    match a
    case Poll(p) => PopKeeps(s.q, p);
    case Dispatch => DispatchInv(s.book, s.q);
    case LoadDone(seen) => if seen { LearnPushes(s.q, |s.q.pushed|); }
    case EmptyLoadHead =>
    case EmptyLoadTail(pushes) =>
      LearnPushes(s.q, pushes);
      LastCheck(s.q, pushes);
    case StoreBooked =>
  }

  /** `empty()` compares counts, through their indices. */
  lemma LastCheck(q: Ring, pushes: nat)
    requires QueueOK(q) && q.consumer.PopIdle? && q.seenPushes <= pushes <= |q.pushed|
    ensures q.head == IndexOf(q, pushes) <==> |q.popped| == pushes
  {
    PopKeeps(q, BeginPop);
    EmptyExact(Pop(q, BeginPop), pushes);
  }

  lemma ActKeeps(s: Sys, a: Act)
    requires Inv(s) && CanAct(s, a)
    ensures Inv(Acted(s, a))
  {
    match a
    case ByParser(p) => ParserKeeps(s, p);
    case ByBook(b) => BookKeeps(s, b);
  }

  lemma {:induction false} ExecutionInv(s: Sys, acts: seq<Act>, s': Sys)
    requires Inv(s) && Execution(s, acts, s')
    ensures Inv(s') && s'.buf == s.buf && s'.doneFirst == s.doneFirst
    decreases |acts|
  {
    if acts != [] {
      ActKeeps(s, acts[0]);
      ExecutionInv(Acted(s, acts[0]), acts[1..], s');
    }
  }

  // ----- the theorems

  /** At every moment of every interleaving the book thread has dispatched an initial part of the
      stream, in file order, and its book is the fold of that part. */
  lemma DispatchedPrefix(s: Sys, acts: seq<Act>, s': Sys)
    requires Starts(s) && Execution(s, acts, s')
    ensures s'.book.dispatched <= ParseAll(Frames(s.buf, 0))
    ensures s'.book.market == Run(FRESH, RouteAll(s'.book.dispatched))
  {
    StartInv(s);
    ExecutionInv(s, acts, s');
    assert s'.book.dispatched <= s'.q.popped <= s'.q.pushed <= ParseAll(Frames(s.buf, 0));
  }

  /** The pipeline equals sequential replay: in every interleaving, when the book thread has exited it
      has dispatched every frame, parsed, in file order; the counts agree; and the book is the
      sequential fold over the stream. */
  lemma PipelineIsSequentialReplay(s: Sys, acts: seq<Act>, s': Sys)
    requires Starts(s) && s.doneFirst && Execution(s, acts, s') && s'.book.pc.BookExited?
    ensures s'.book.dispatched == ParseAll(Frames(s.buf, 0))
    ensures s'.book.msgsBooked == s'.parser.msgsParsed == |Frames(s.buf, 0)|
    ensures s'.book.market == Run(FRESH, RouteAll(ParseAll(Frames(s.buf, 0))))
    ensures s'.parser.pc.ParserExited?
  {
    StartInv(s);
    ExecutionInv(s, acts, s');
    assert s'.book.dispatched == s'.q.popped == s'.q.pushed == ParseAll(Frames(s.buf, 0));
  }

  /** The same in terms of the wire: when the book thread has exited on a stream whose frames carry the
      messages `ws`, the book is the fold over what these messages ask for. */
  lemma PipelineOnWire(s: Sys, acts: seq<Act>, s': Sys, frames: seq<seq<u8>>, rest: seq<u8>, ws: seq<ParsedMessage>)
    requires Starts(s) && s.doneFirst && Execution(s, acts, s') && s'.book.pc.BookExited?
    requires (forall f :: f in frames ==> Sendable(f)) && s.buf == Stream(frames) + rest && Next(rest, 0).0.None?
    requires Carries(frames, ws)
    ensures forall i :: 0 <= i < |ws| ==> ws[i].Monostate? || Fits(ws[i])
    ensures s'.book.market == Run(FRESH, Operations(ws)) && s'.book.msgsBooked == |ws|
  {
    PipelineIsSequentialReplay(s, acts, s');
    StreamRoundTrip(frames, rest);
    assert frames + [] == frames;
    RouteCarried(frames, ws);
  }

  // ----- the real book behind the thread

  /** What the book thread has taken, the message in hand included, is an initial part of the stream. */
  lemma TakenFirst(s: Sys)
    requires Inv(s)
    ensures Taken(s.book) <= ParseAll(Frames(s.buf, 0))
    ensures s.book.market == Run(FRESH, RouteAll(s.book.dispatched))
  {
    assert s.q.popped <= s.q.pushed;
  }

  /** In every interleaving a well-formed stream reaches the handlers well-formed. */
  lemma DispatchReady(s: Sys, acts: seq<Act>, s': Sys, capacity: nat)
    requires Starts(s) && Execution(s, acts, s') && s'.book.pc.Applying?
    requires WellFormedRun(FRESH, capacity, RouteAll(ParseAll(Frames(s.buf, 0))))
    ensures WellFormed(s'.book.market, capacity, Route(s'.book.pc.msg))
  {
    StartInv(s);
    ExecutionInv(s, acts, s');
    TakenFirst(s');
    NextReady(ParseAll(Frames(s.buf, 0)), s'.book.dispatched, s'.book.pc.msg, capacity);
  }

  lemma NextReady(all: seq<ParsedMessage>, done: seq<ParsedMessage>, msg: ParsedMessage, capacity: nat)
    requires done + [msg] <= all && WellFormedRun(FRESH, capacity, RouteAll(all))
    ensures WellFormed(Run(FRESH, RouteAll(done)), capacity, Route(msg))
  {
    var n := |done|;
    assert all[n] == (done + [msg])[n] && all[..n] == (done + [msg])[..n] == done;
    assert RouteAll(all)[..n] == RouteAll(done);
    WellFormedAt(FRESH, capacity, RouteAll(all), n);
  }

  /** The dispatch of the book thread on the real book: whenever the interleaving gets there, the book
      accepts the message and follows the thread's market. */
  method DispatchPopped(book: OrderBook, msg: ParsedMessage, ghost s: Sys, ghost acts: seq<Act>, ghost s': Sys)
    requires Starts(s) && Execution(s, acts, s') && s'.q.Capacity() >= 1
    requires s'.book.pc == Applying(msg)
    requires book.Valid() && book.Market() == s'.book.market
    requires WellFormedRun(FRESH, book.Capacity(), RouteAll(ParseAll(Frames(s.buf, 0))))
    modifies book.Repr()
    ensures book.Valid() && book.Capacity() == old(book.Capacity())
    ensures book.Market() == Booked(s', BookAct.Dispatch).book.market
  {
    DispatchReady(s, acts, s', book.Capacity());
    book.Dispatch(Route(msg));
  }

  // ----- why the order of the two checks matters

  lemma {:induction false} Extend(s: Sys, acts: seq<Act>, t: Sys, a: Act)
    requires Execution(s, acts, t) && CanAct(t, a)
    ensures Execution(s, acts + [a], Acted(t, a))
    decreases |acts|
  {
    if acts == [] {
      assert [a][1..] == [];
      assert Execution(Acted(t, a), [], Acted(t, a));
    } else {
      assert (acts + [a])[1..] == acts[1..] + [a];
      Extend(Acted(s, acts[0]), acts[1..], t, a);
    }
  }

  /** One frame of an unknown type. */
  const ONE_FRAME: seq<u8> := [0, 1, 90]

  lemma OneFrame()
    ensures Next(ONE_FRAME, 0) == (Some([90]), 3) && Next(ONE_FRAME, 3) == (None, 3)
    ensures |Frames(ONE_FRAME, 0)| == 1 && ParseMessage([90]) == Monostate
  {
    assert ONE_FRAME[2..3] == [90];
    assert Frames(ONE_FRAME, 3) == [];
  }

  function Waiting(doneFirst: bool): Sys {
    Sys(doneFirst, ONE_FRAME, Queue(1, [Monostate, Monostate], 0, 0, PushIdle, PopIdle, [], [], 0, 0),
        ParserThread(Reading, 0, 0, 0, false), BookThread(Polling, 0, 0, [], FRESH))
  }

  /** The book thread finds the ring empty, twice, before anything is pushed. */
  lemma FoundEmpty() returns (acts: seq<Act>, t: Sys)
    ensures Execution(Waiting(false), acts, t)
    ensures t == Waiting(false).(book := BookThread(LoadingDone, 0, 0, [], FRESH))
  {
    var s := Waiting(false);
    assert s.q.Capacity() == 2;
    acts, t := [], s;
    Extend(s, acts, t, ByBook(Poll(BeginPop)));
    acts, t := acts + [ByBook(Poll(BeginPop))], Acted(t, ByBook(Poll(BeginPop)));
    Extend(s, acts, t, ByBook(Poll(LoadTail(0))));
    acts, t := acts + [ByBook(Poll(LoadTail(0)))], Acted(t, ByBook(Poll(LoadTail(0))));
    Extend(s, acts, t, ByBook(EmptyLoadHead));
    acts, t := acts + [ByBook(EmptyLoadHead)], Acted(t, ByBook(EmptyLoadHead));
    Extend(s, acts, t, ByBook(EmptyLoadTail(0)));
    acts, t := acts + [ByBook(EmptyLoadTail(0))], Acted(t, ByBook(EmptyLoadTail(0)));
  }

  /** The parser thread then sends its only message. */
  lemma SentOne(s: Sys, before: seq<Act>, t0: Sys) returns (acts: seq<Act>, t: Sys)
    requires Execution(s, before, t0) && t0 == Waiting(false).(book := t0.book)
    ensures Execution(s, acts, t)
    ensures t.parser == ParserThread(Reading, 3, 1, 0, false) && t.book == t0.book && t.buf == ONE_FRAME
    ensures t.q.Capacity() == 2 && t.q.pushed == [Monostate] && !t.doneFirst && t.q.seenPushes == 0
  {
    assert t0.q.Capacity() == 2;
    acts, t := before, t0;
    OneFrame();
    var steps := [BeginPush(Monostate), LoadHead(0), WriteSlot, StoreTail];
    Extend(s, acts, t, ByParser(ReadFrame));
    acts, t := acts + [ByParser(ReadFrame)], Acted(t, ByParser(ReadFrame));
    Extend(s, acts, t, ByParser(Send(steps[0])));
    acts, t := acts + [ByParser(Send(steps[0]))], Acted(t, ByParser(Send(steps[0])));
    assert t.q.Mask(1) == 1;
    Extend(s, acts, t, ByParser(Send(steps[1])));
    acts, t := acts + [ByParser(Send(steps[1]))], Acted(t, ByParser(Send(steps[1])));
    Extend(s, acts, t, ByParser(Send(steps[2])));
    acts, t := acts + [ByParser(Send(steps[2]))], Acted(t, ByParser(Send(steps[2])));
    Extend(s, acts, t, ByParser(Send(steps[3])));
    acts, t := acts + [ByParser(Send(steps[3]))], Acted(t, ByParser(Send(steps[3])));
  }

  /** The parser thread reaches the end of the stream and says so; the book thread, past its check for
      emptiness, believes it. */
  lemma Finished(s: Sys, before: seq<Act>, t0: Sys) returns (acts: seq<Act>, t: Sys)
    requires Execution(s, before, t0) && t0.q.Capacity() >= 1 && !t0.doneFirst && t0.buf == ONE_FRAME
    requires t0.parser == ParserThread(Reading, 3, 1, 0, false) && t0.book.pc.LoadingDone?
    ensures Execution(s, acts, t) && t.book.pc.BookExited? && t.book.dispatched == t0.book.dispatched
  {
    OneFrame();
    acts, t := before, t0;
    Extend(s, acts, t, ByParser(ReadFrame));
    acts, t := acts + [ByParser(ReadFrame)], Acted(t, ByParser(ReadFrame));
    Extend(s, acts, t, ByParser(StoreParsed));
    acts, t := acts + [ByParser(StoreParsed)], Acted(t, ByParser(StoreParsed));
    Extend(s, acts, t, ByParser(StoreDone));
    acts, t := acts + [ByParser(StoreDone)], Acted(t, ByParser(StoreDone));
    Extend(s, acts, t, ByBook(LoadDone(true)));
    acts, t := acts + [ByBook(LoadDone(true))], Acted(t, ByBook(LoadDone(true)));
    Extend(s, acts, t, ByBook(StoreBooked));
    acts, t := acts + [ByBook(StoreBooked)], Acted(t, ByBook(StoreBooked));
  }

  /** With the two checks swapped, `empty()` before `parse_done`, the book thread can exit with a
      message undelivered. */
  lemma SwappedChecksLose() returns (s: Sys, acts: seq<Act>, s': Sys)
    ensures Starts(s) && !s.doneFirst && Execution(s, acts, s')
    ensures s'.book.pc.BookExited? && s'.book.dispatched == [] && |Frames(s.buf, 0)| == 1
  {
    s := Waiting(false);
    assert s.q.Capacity() == 2;
    OneFrame();
    var t;
    acts, t := FoundEmpty();
    acts, t := SentOne(s, acts, t);
    acts, s' := Finished(s, acts, t);
  }
}
