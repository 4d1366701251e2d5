/** The pipeline is never stuck: what it takes for the book thread to be able to finish. */
module Completions {
  import opened Framing
  import opened Messages
  import opened Spsc
  import opened Pipelines

  /** The number of messages in the stream. */
  function StreamLength(s: Sys): nat {
    |ParseAll(Frames(s.buf, 0))|
  }

  // ----- what each thread still has to do

  function PushRank(p: PushState<ParsedMessage>): nat {
    match p
    case PushIdle => 4
    case PushHaveTail(_, _) => 3
    case PushAtSlot(_, _) => 2
    case PushAtStore(_, _) => 1
  }

  function ParserRank(s: Sys): nat {
    match s.parser.pc
    case Reading => 5 * |Unread(s.buf, s.parser)| + 3
    case Sending(_) => 5 * |Unread(s.buf, s.parser)| + 3 + PushRank(s.q.producer)
    case StoringParsed => 2
    case StoringDone => 1
    case ParserExited => 0
  }

  function PopRank(c: PopState<ParsedMessage>): nat {
    match c
    case PopIdle => 4
    case PopHaveHead(_) => 3
    case PopAtSlot(_) => 2
    case PopAtStore(_, _) => 1
  }

  /** With `left` messages still to be popped. */
  function BookRank(left: nat, c: PopState<ParsedMessage>, pc: BookPc): nat {
    7 * left +
    match pc
    case Polling => PopRank(c) + (if left == 0 then 2 else 0)
    case Applying(_) => if left == 0 then 7 else 5
    case LoadingDone => if left == 0 then 4 else 5
    case LoadingHead => if left == 0 then 3 else 6
    case LoadingTail(_) => if left == 0 then 2 else 5
    case StoringBooked => 1
    case BookExited => 0
  }

  function Left(s: Sys): nat
    requires |s.q.popped| <= StreamLength(s)
  {
    StreamLength(s) - |s.q.popped|
  }

  /** Nothing in the ring or in the threads is ahead of the stream. */
  lemma Behind(s: Sys)
    requires Inv(s)
    ensures |s.q.popped| <= |s.q.pushed| <= StreamLength(s)
    ensures s.parser.pc.ParserExited? ==> |s.q.pushed| == StreamLength(s)
  {
  }

  /** Full as far as anyone could tell. */
  predicate Blocked(s: Sys) {
    s.q.producer.PushHaveTail? && |s.q.pushed| + 1 == |s.q.popped| + s.q.Capacity()
  }

  // ----- either thread can take a step that leaves it less to do

  lemma PushAdvances(s: Sys) returns (p: PushAction<ParsedMessage>)
    requires Inv(s) && s.parser.pc.Sending? && !Blocked(s)
    ensures CanParse(s, Send(p)) && ParserRank(Parsed(s, Send(p))) < ParserRank(s)
  {
    match s.q.producer
    case PushIdle => p := BeginPush(s.parser.pc.msg);
    case PushHaveTail(_, _) =>
      p := LoadHead(|s.q.popped|);
      FullExact(s.q, |s.q.popped|);
    case PushAtSlot(_, _) => p := WriteSlot;
    case PushAtStore(_, _) => p := StoreTail;
  }

  lemma ParserAdvances(s: Sys) returns (a: ParserAct)
    requires Inv(s) && !s.parser.pc.ParserExited? && !Blocked(s)
    ensures CanParse(s, a) && ParserRank(Parsed(s, a)) < ParserRank(s)
    ensures Parsed(s, a).book == s.book && Parsed(s, a).q.popped == s.q.popped
    ensures Parsed(s, a).q.consumer == s.q.consumer
  {
    match s.parser.pc
    case Reading => a := ReadFrame;
    case Sending(_) =>
      var p := PushAdvances(s);
      a := Send(p);
    case StoringParsed => a := StoreParsed;
    case StoringDone => a := StoreDone;
  }

  lemma PopAdvances(s: Sys) returns (p: PopAction)
    requires Inv(s) && s.book.pc.Polling? && (s.parser.pc.ParserExited? || |s.q.popped| < |s.q.pushed|)
    requires s.doneFirst && |s.q.popped| <= |s.q.pushed| <= StreamLength(s)
    requires s.parser.pc.ParserExited? ==> |s.q.pushed| == StreamLength(s)
    ensures CanBook(s, Poll(p))
    ensures var t := Booked(s, Poll(p));
      && |t.q.popped| <= StreamLength(s)
      && BookRank(Left(t), t.q.consumer, t.book.pc) < BookRank(Left(s), s.q.consumer, s.book.pc)
  {
    match s.q.consumer
    case PopIdle => p := BeginPop;
    case PopHaveHead(_) =>
      p := LoadTail(|s.q.pushed|);
      EmptyExact(s.q, |s.q.pushed|);
    case PopAtSlot(_) => p := ReadSlot;
    case PopAtStore(_, _) => p := StoreHead;
  }

  lemma BookAdvances(s: Sys) returns (a: BookAct)
    requires Inv(s) && s.doneFirst && !s.book.pc.BookExited?
    requires s.parser.pc.ParserExited? || |s.q.popped| < |s.q.pushed|
    ensures CanBook(s, a)
    ensures var t := Booked(s, a);
      && t.parser == s.parser && t.q.producer == s.q.producer
      && |s.q.popped| <= StreamLength(s) && |t.q.popped| <= StreamLength(s)
      && BookRank(Left(t), t.q.consumer, t.book.pc) < BookRank(Left(s), s.q.consumer, s.book.pc)
  {
    Behind(s);
    match s.book.pc
    case Polling =>
      var p := PopAdvances(s);
      a := Poll(p);
    case Applying(_) => a := Dispatch;
    case LoadingDone => a := LoadDone(Left(s) == 0);
    case LoadingHead => a := EmptyLoadHead;
    case LoadingTail(_) =>
      a := EmptyLoadTail(|s.q.pushed|);
      LastCheck(s.q, |s.q.pushed|);
    case StoringBooked => a := StoreBooked;
  }

  function Rank(s: Sys): nat
    requires |s.q.popped| <= StreamLength(s)
  {
    ParserRank(s) + BookRank(Left(s), s.q.consumer, s.book.pc)
  }

  /** What a step of either thread leaves as it was. */
  predicate SameRun(s: Sys, t: Sys) {
    t.doneFirst == s.doneFirst && t.q.Capacity() == s.q.Capacity() && t.buf == s.buf
  }

  /** A blocked producer waits for a ring that is not empty. */
  lemma BlockedNotEmpty(s: Sys)
    requires Inv(s) && Blocked(s) && (s.q.Capacity() >= 2 || StreamLength(s) == 0)
    ensures |s.q.popped| < |s.q.pushed|
  {
    assert s.parser.pc.Sending?;
  }

  lemma Advances(s: Sys) returns (a: Act)
    requires Inv(s) && s.doneFirst && (s.q.Capacity() >= 2 || StreamLength(s) == 0) && !s.book.pc.BookExited?
    ensures CanAct(s, a) && SameRun(s, Acted(s, a))
    ensures |s.q.popped| <= StreamLength(s) && |Acted(s, a).q.popped| <= StreamLength(s)
    ensures Rank(Acted(s, a)) < Rank(s)
  {
    Behind(s);
    if s.parser.pc.ParserExited? || Blocked(s) {
      if Blocked(s) { BlockedNotEmpty(s); }
      var b := BookAdvances(s);
      a := ByBook(b);
    } else {
      var p := ParserAdvances(s);
      a := ByParser(p);
    }
  }

  lemma {:induction false} Finishes(s: Sys) returns (more: seq<Act>, t: Sys)
    requires Inv(s) && s.doneFirst && (s.q.Capacity() >= 2 || StreamLength(s) == 0) && |s.q.popped| <= StreamLength(s)
    ensures Execution(s, more, t) && t.book.pc.BookExited?
    decreases Rank(s)
  {
    if s.book.pc.BookExited? {
      more, t := [], s;
    } else {
      var a := Advances(s);
      ActKeeps(s, a);
      var rest;
      rest, t := Finishes(Acted(s, a));
      more := [a] + rest;
      assert more[1..] == rest;
    }
  }

  lemma {:induction false} Composed(s: Sys, acts: seq<Act>, t: Sys, more: seq<Act>, u: Sys)
    requires Execution(s, acts, t) && Execution(t, more, u)
    ensures Execution(s, acts + more, u)
    decreases |acts|
  {
    if acts == [] {
      assert acts + more == more;
    } else {
      assert (acts + more)[1..] == acts[1..] + more;
      Composed(Acted(s, acts[0]), acts[1..], t, more, u);
    }
  }

  /** From every reachable state, of a ring with at least two slots or for an empty stream, some
      continuation lets the book thread exit, and then everything was dispatched. */
  lemma CanFinish(s: Sys, acts: seq<Act>, s': Sys) returns (more: seq<Act>, t: Sys)
    requires Starts(s) && s.doneFirst && (s.q.Capacity() >= 2 || Frames(s.buf, 0) == []) && Execution(s, acts, s')
    ensures Execution(s', more, t) && t.book.pc.BookExited?
    ensures t.book.dispatched == ParseAll(Frames(s.buf, 0))
  {
    StartInv(s);
    ExecutionInv(s, acts, s');
    SameCapacity(s, acts, s');
    Behind(s');
    more, t := Finishes(s');
    Composed(s, acts, s', more, t);
    PipelineIsSequentialReplay(s, acts + more, t);
  }

  lemma {:induction false} SameCapacity(s: Sys, acts: seq<Act>, s': Sys)
    requires Execution(s, acts, s')
    ensures s'.q.Capacity() == s.q.Capacity()
    decreases |acts|
  {
    if acts != [] {
      SameCapacity(Acted(s, acts[0]), acts[1..], s');
    }
  }

  // ----- a ring of one slot

  /** A ring of one slot, which the engine's power-of-two check lets through, never takes an element. */
  lemma {:induction false} OneSlotTakesNothing(s: Sys, acts: seq<Act>, s': Sys)
    requires Inv(s) && s.q.Capacity() == 1 && s.q.pushed == [] && Execution(s, acts, s')
    ensures s'.q.pushed == []
    decreases |acts|
  {
    if acts != [] {
      ActKeeps(s, acts[0]);
      OneSlotTakesNothing(Acted(s, acts[0]), acts[1..], s');
    }
  }

  lemma OneSlotNeverFinishes(s: Sys, acts: seq<Act>, t: Sys)
    requires Starts(s) && s.doneFirst && s.q.Capacity() == 1 && Frames(s.buf, 0) != [] && Execution(s, acts, t)
    ensures !t.book.pc.BookExited?
  {
    StartInv(s);
    ExecutionInv(s, acts, t);
    OneSlotTakesNothing(s, acts, t);
    if t.book.pc.BookExited? {
      PipelineIsSequentialReplay(s, acts, t);
    }
  }

  ghost predicate ExitReached(s: Sys, acts: seq<Act>, t: Sys) {
    Execution(s, acts, t) && t.book.pc.BookExited?
  }

  /** The program can finish exactly if the ring has at least two slots or the stream has no frame. */
  lemma FinishesIff(s: Sys)
    requires Starts(s) && s.doneFirst && s.q.Capacity() >= 1
    ensures (exists acts, t :: ExitReached(s, acts, t)) <==> s.q.Capacity() >= 2 || Frames(s.buf, 0) == []
  {
    if s.q.Capacity() >= 2 || Frames(s.buf, 0) == [] {
      var acts, t := CanFinish(s, [], s);
      assert ExitReached(s, acts, t);
    } else {
      forall acts, t
        ensures !ExitReached(s, acts, t)
      {
        if ExitReached(s, acts, t) { OneSlotNeverFinishes(s, acts, t); }
      }
    }
  }
}
