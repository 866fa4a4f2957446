/**
 A pipe: 512 bytes used as a ring, with 32-bit counters of the bytes read and
 written that are left to wrap around.

 A reader or writer holds the pipe's lock except while it sleeps, so a method here
 is what happens between taking the lock and giving it up; any order of calls by any
 processes is an interleaving. The ghost fields hold every byte ever accepted and
 consumed, and the invariant makes the ring the part between.
 */
module Pipe {
  import opened Common

  const PIPESIZE := 512
  const WRAP := UINT_LIMIT

  datatype Status = Finished | Asleep | Failed

  /** The counters count modulo 2^32, a multiple of the size, so the ring position is unaffected. */
  lemma WrapKeepsPosition(n: nat)
    ensures n % WRAP % PIPESIZE == n % PIPESIZE
  {
    var q := n / WRAP;
    assert n == q * WRAP + n % WRAP;
    assert n == (q * 0x80_0000) * PIPESIZE + n % WRAP;
  }

  /** At most 512 bytes apart, the wrapped counters tell full and empty exactly. */
  lemma WrapKeepsDistance(r: nat, w: nat)
    requires r <= w <= r + PIPESIZE
    ensures w % WRAP == (r % WRAP + PIPESIZE) % WRAP <==> w == r + PIPESIZE
    ensures r % WRAP == w % WRAP <==> w == r
  {
    var q := r / WRAP;
    var d := w - r;
    assert r == q * WRAP + r % WRAP;
    if r % WRAP + d < WRAP {
      Remainder(w, q, r % WRAP + d);
    } else {
      Remainder(w, q + 1, r % WRAP + d - WRAP);
    }
  }

  lemma Remainder(n: nat, q: nat, r: nat)
    requires n == q * WRAP + r && r < WRAP
    ensures n % WRAP == r
  {}

  /** Nearby positions of the ring differ. */
  lemma PositionsDiffer(i: nat, j: nat)
    requires i < j < i + PIPESIZE
    ensures i % PIPESIZE != j % PIPESIZE
  {}

  lemma CountOn(n: nat)
    ensures (n % WRAP + 1) % WRAP == (n + 1) % WRAP
  {}

  class Channel {
    const data: array<Byte>
    var nread: nat
    var nwrite: nat
    var readopen: bool
    var writeopen: bool
    ghost var accepted: seq<Byte>
    ghost var consumed: seq<Byte>

    ghost predicate Valid()
      reads this, data
    {
      && data.Length == PIPESIZE
      && consumed <= accepted
      && |accepted| <= |consumed| + PIPESIZE
      && nread == |consumed| % WRAP
      && nwrite == |accepted| % WRAP
      && forall i :: |consumed| <= i < |accepted| ==> data[i % PIPESIZE] == accepted[i]
    }

    /** The bytes in the ring, oldest first. */
    ghost function Held(): seq<Byte>
      requires Valid()
      reads this, data
    {
      accepted[|consumed|..]
    }

    ghost function AsQueue(): (q: Queue)
      requires Valid()
      reads this, data
      ensures |q.held| <= PIPESIZE
    {
      Queue(Held(), readopen, writeopen)
    }

    constructor ()
      ensures Valid() && fresh(data) && accepted == [] && consumed == [] && readopen && writeopen
    {
      data := new Byte[PIPESIZE](_ => 0);
      nread, nwrite, readopen, writeopen := 0, 0, true, true;
      accepted, consumed := [], [];
    }

    method IsFull() returns (full: bool)
      requires Valid()
      ensures full <==> |Held()| == PIPESIZE
    {
      WrapKeepsDistance(|consumed|, |accepted|);
      full := nwrite == (nread + PIPESIZE) % WRAP;
    }

    method IsEmpty() returns (empty: bool)
      requires Valid()
      ensures empty <==> Held() == []
    {
      WrapKeepsDistance(|consumed|, |accepted|);
      empty := nread == nwrite;
    }

    method PutByte(ch: Byte)
      requires Valid() && |Held()| < PIPESIZE
      modifies this, data
      ensures Valid() && accepted == old(accepted) + [ch] && consumed == old(consumed)
      ensures readopen == old(readopen) && writeopen == old(writeopen)
    {
      WrapKeepsPosition(|accepted|);
      CountOn(|accepted|);
      forall i | |consumed| <= i < |accepted|
        ensures i % PIPESIZE != |accepted| % PIPESIZE
      {
        PositionsDiffer(i, |accepted|);
      }
      data[nwrite % PIPESIZE] := ch;
      nwrite := (nwrite + 1) % WRAP;
      accepted := accepted + [ch];
    }

    method GetByte() returns (ch: Byte)
      requires Valid() && Held() != []
      modifies this
      ensures Valid() && accepted == old(accepted) && consumed == old(consumed) + [ch] && ch == old(Held())[0]
      ensures readopen == old(readopen) && writeopen == old(writeopen)
    {
      WrapKeepsPosition(|consumed|);
      CountOn(|consumed|);
      ch := data[nread % PIPESIZE];
      nread := (nread + 1) % WRAP;
      consumed := consumed + [ch];
    }

    /**
     pipewrite of `n` bytes, of which copyin can read the first |src|, from byte `i` until it
     is done or must sleep; it goes on from `next` when it is woken. It ends where copyin
     fails, and fails only if the ring is full and no one will read, or the writer was killed.
     */
    method Write(src: seq<Byte>, n: nat, i: nat, killed: bool) returns (status: Status, next: nat)
      requires Valid() && i <= |src| <= n
      modifies this, data
      ensures Valid() && readopen == old(readopen) && writeopen == old(writeopen)
      ensures i <= next <= |src| && accepted == old(accepted) + src[i..next] && consumed == old(consumed)
      ensures next < |src| ==> |Held()| == PIPESIZE
      ensures status == Finished <==> next == |src| && (n == |src| || |Held()| < PIPESIZE)
      ensures status == Asleep <==> status != Finished && readopen && !killed
      ensures status == Failed <==> status != Finished && (!readopen || killed)
    {
      next := i;
      while next < n
        invariant i <= next <= |src|
        invariant Valid() && accepted == old(accepted) + src[i..next] && consumed == old(consumed)
        invariant readopen == old(readopen) && writeopen == old(writeopen)
      {
        var full := IsFull();
        if full {
          return (if !readopen || killed then Failed else Asleep), next;
        }
        if next == |src| {
          break;
        }
        PutByte(src[next]);
        next := next + 1;
      }
      return Finished, next;
    }

    /**
     piperead: sleeps while the ring is empty and someone may still write. Otherwise it
     delivers the oldest bytes, as many as are asked for and there; none at all only at the
     end of the stream. copyout can write the first `room` bytes; where it fails, one byte
     more has been taken, and is dropped.
     */
    method Read(n: int, room: nat, killed: bool) returns (status: Status, bytes: seq<Byte>, dropped: seq<Byte>)
      requires Valid()
      modifies this
      ensures Valid() && readopen == old(readopen) && writeopen == old(writeopen)
      ensures accepted == old(accepted) && consumed == old(consumed) + (bytes + dropped)
      ensures status == Asleep <==> old(Held()) == [] && writeopen && !killed
      ensures status == Failed <==> old(Held()) == [] && writeopen && killed
      ensures status != Finished ==> bytes == [] && dropped == []
      ensures status == Finished ==> |bytes| == Moved(Moved(n, |old(Held())|), room)
      ensures status == Finished ==> |dropped| == if room < Moved(n, |old(Held())|) then 1 else 0
      ensures |bytes| + |dropped| <= |old(Held())| && bytes == old(Held())[..|bytes|]
      ensures dropped == old(Held())[|bytes|..|bytes| + |dropped|]
      ensures Held() == old(Held())[|bytes| + |dropped|..]
    {
      var empty := IsEmpty();
      dropped := [];
      if empty && writeopen {
        return (if killed then Failed else Asleep), [], [];
      }
      bytes := [];
      var i := 0;
      while i < n
        invariant 0 <= i && (i == 0 || i <= n) && |bytes| == i && i <= room && dropped == []
        invariant Valid() && accepted == old(accepted) && consumed == old(consumed) + bytes
        invariant readopen == old(readopen) && writeopen == old(writeopen)
        invariant i <= |old(Held())| && bytes == old(Held())[..i]
        decreases n - i
      {
        empty := IsEmpty();
        if empty {
          assert i == |old(Held())|;
          break;
        }
        var ch := GetByte();
        if i == room {
          dropped := [ch];
          break;
        }
        bytes := bytes + [ch];
        i := i + 1;
      }
      status := Finished;
    }

    /** Closes one end; the pipe goes when both are closed. */
    method Close(writable: bool) returns (gone: bool)
      requires Valid()
      modifies this
      ensures Valid() && accepted == old(accepted) && consumed == old(consumed)
      ensures writeopen == (old(writeopen) && !writable) && readopen == (old(readopen) && writable)
      ensures gone <==> !readopen && !writeopen
    {
      if writable {
        writeopen := false;
      } else {
        readopen := false;
      }
      return !readopen && !writeopen;
    }
  }

  // ---- The pipe as a queue ----

  /** The bytes on the way, and the ends that are open. */
  datatype Queue = Queue(held: seq<Byte>, readopen: bool, writeopen: bool)

  /** A stretch of some process's call, from taking the lock to giving it up. */
  datatype Call =
    | Writing(src: seq<Byte>, short: bool, killed: bool)  // `short`: more was to be written, but copyin cannot read it
    | Reading(n: int, room: nat, killed: bool)            // copyout can write `room` bytes
    | Closing(writable: bool)

  /** What came of it: the bytes accepted, those delivered and the one dropped, or whether the pipe is gone. */
  datatype Answer =
    | Put(status: Status, bytes: seq<Byte>)
    | Got(status: Status, bytes: seq<Byte>, dropped: seq<Byte>)
    | Closed(gone: bool)

  /** How many bytes a call moves: those asked for, as far as there is room or there are bytes. */
  function Moved(asked: int, available: nat): nat {
    if asked <= 0 then 0 else if asked < available then asked else available
  }

  function AnswerTo(q: Queue, c: Call): Answer
    requires |q.held| <= PIPESIZE
  {
    match c
    case Writing(src, short, killed) =>
      var room := PIPESIZE - |q.held|;
      var n := Moved(|src|, room);
      var finished := n == |src| && (!short || n < room);
      Put(if finished then Finished else if !q.readopen || killed then Failed else Asleep, src[..n])
    case Reading(n, room, killed) =>
      if q.held == [] && q.writeopen then Got(if killed then Failed else Asleep, [], [])
      else
        var m := Moved(n, |q.held|);
        if room < m then Got(Finished, q.held[..room], [q.held[room]]) else Got(Finished, q.held[..m], [])
    case Closing(writable) => Closed(!(q.writeopen && !writable) && !(q.readopen && writable))
  }

  function After(q: Queue, c: Call): (q': Queue)
    requires |q.held| <= PIPESIZE
    ensures |q'.held| <= PIPESIZE
  {
    match c
    case Writing(_, _, _) => q.(held := q.held + AnswerTo(q, c).bytes)
    case Reading(_, _, _) => q.(held := q.held[|TakenBy(AnswerTo(q, c))|..])
    case Closing(writable) => q.(writeopen := q.writeopen && !writable, readopen := q.readopen && writable)
  }

  function AfterAll(q: Queue, calls: seq<Call>): (q': Queue)
    requires |q.held| <= PIPESIZE
    ensures |q'.held| <= PIPESIZE
  {
    if calls == [] then q else After(AfterAll(q, calls[..|calls| - 1]), calls[|calls| - 1])
  }

  function PutBy(a: Answer): seq<Byte> {
    if a.Put? then a.bytes else []
  }

  function GotBy(a: Answer): seq<Byte> {
    if a.Got? then a.bytes else []
  }

  function TakenBy(a: Answer): seq<Byte> {
    if a.Got? then a.bytes + a.dropped else []
  }

  /** All bytes accepted, and all delivered, in order. */
  function AllPut(answers: seq<Answer>): seq<Byte> {
    if answers == [] then [] else AllPut(answers[..|answers| - 1]) + PutBy(answers[|answers| - 1])
  }

  function AllGot(answers: seq<Answer>): seq<Byte> {
    if answers == [] then [] else AllGot(answers[..|answers| - 1]) + GotBy(answers[|answers| - 1])
  }

  /** All bytes taken out, delivered or dropped, in order. */
  function AllTaken(answers: seq<Answer>): seq<Byte> {
    if answers == [] then [] else AllTaken(answers[..|answers| - 1]) + TakenBy(answers[|answers| - 1])
  }

  /** Nothing is dropped where copyout does not fail. */
  lemma {:induction false} TakenIsGot(answers: seq<Answer>)
    requires forall i :: 0 <= i < |answers| && answers[i].Got? ==> answers[i].dropped == []
    ensures AllTaken(answers) == AllGot(answers)
  {
    if answers != [] {
      TakenIsGot(answers[..|answers| - 1]);
    }
  }

  /** The answer to call `i`. */
  function AnswerAt(q: Queue, calls: seq<Call>, i: nat): Answer
    requires |q.held| <= PIPESIZE && i < |calls|
  {
    AnswerTo(AfterAll(q, calls[..i]), calls[i])
  }

  /** These are the answers a queue gives to the first calls ... */
  ghost predicate AnswersFirst(q: Queue, calls: seq<Call>, answers: seq<Answer>)
    requires |q.held| <= PIPESIZE
  {
    |answers| <= |calls| && forall i :: 0 <= i < |answers| ==> answers[i] == AnswerAt(q, calls, i)
  }

  /** ... and to all of them. */
  ghost predicate Answers(q: Queue, calls: seq<Call>, answers: seq<Answer>)
    requires |q.held| <= PIPESIZE
  {
    |answers| == |calls| && AnswersFirst(q, calls, answers)
  }

  lemma OneCallInOrder(q: Queue, c: Call)
    requires |q.held| <= PIPESIZE
    ensures q.held + PutBy(AnswerTo(q, c)) == TakenBy(AnswerTo(q, c)) + After(q, c).held
  {}

  lemma Chain(h: seq<Byte>, puts: seq<Byte>, gots: seq<Byte>, mid: seq<Byte>, put: seq<Byte>, got: seq<Byte>,
              end: seq<Byte>)
    requires h + puts == gots + mid && mid + put == got + end
    ensures h + (puts + put) == (gots + got) + end
  {
    calc {
      h + (puts + put);
      (h + puts) + put;
      gots + (mid + put);
      (gots + got) + end;
    }
  }

  /** First in, first out: what is taken out, with what is still held, is what was accepted. */
  lemma {:induction false} FirstInFirstOut(q: Queue, calls: seq<Call>, answers: seq<Answer>)
    requires |q.held| <= PIPESIZE && Answers(q, calls, answers)
    ensures q.held + AllPut(answers) == AllTaken(answers) + AfterAll(q, calls).held
  {
    hide Answers, AnswerTo, After, PutBy, TakenBy;
    AnswerCount(q, calls, answers);
    if calls != [] {
      var n := |calls| - 1;
      AnswersPrefix(q, calls, answers);
      FirstInFirstOut(q, calls[..n], answers[..n]);
      var before := AfterAll(q, calls[..n]);
      OneCallInOrder(before, calls[n]);
      Chain(q.held, AllPut(answers[..n]), AllTaken(answers[..n]), before.held, PutBy(answers[n]), TakenBy(answers[n]),
        AfterAll(q, calls).held);
    }
  }

  lemma AnswerCount(q: Queue, calls: seq<Call>, answers: seq<Answer>)
    requires |q.held| <= PIPESIZE && Answers(q, calls, answers)
    ensures |answers| == |calls|
  {}

  lemma AnswersPrefix(q: Queue, calls: seq<Call>, answers: seq<Answer>)
    requires |q.held| <= PIPESIZE && Answers(q, calls, answers) && calls != []
    ensures Answers(q, calls[..|calls| - 1], answers[..|calls| - 1])
    ensures answers[|calls| - 1] == AnswerTo(AfterAll(q, calls[..|calls| - 1]), calls[|calls| - 1])
  {
    hide AnswerTo, AfterAll;
    var n := |calls| - 1;
    forall i | 0 <= i < n
      ensures answers[..n][i] == AnswerTo(AfterAll(q, calls[..n][..i]), calls[..n][i])
    {
      assert calls[..n][..i] == calls[..i];
    }
  }

  /** A read that is done and has nothing, though bytes were asked for and there was room for them. */
  predicate EmptyRead(c: Call, a: Answer) {
    c.Reading? && c.n > 0 && c.room > 0 && a == Got(Finished, [], [])
  }

  lemma ReadAtEnd(q: Queue, c: Call)
    requires |q.held| <= PIPESIZE && EmptyRead(c, AnswerTo(q, c))
    ensures q.held == [] && !q.writeopen
  {}

  /**
   An empty read is the end of the stream. All that was accepted before it has been taken
   out; and unless someone still writes, no later read gets a byte or waits for one.
   */
  lemma EmptyReadIsEnd(q: Queue, calls: seq<Call>, answers: seq<Answer>, i: nat, j: nat)
    requires |q.held| <= PIPESIZE && Answers(q, calls, answers) && i <= j < |calls| && EmptyRead(calls[i], answers[i])
    requires forall k :: i < k < |calls| ==> !calls[k].Writing?
    ensures AllTaken(answers[..i]) == q.held + AllPut(answers[..i])
    ensures calls[j].Reading? ==> answers[j] == Got(Finished, [], [])
  {
    hide Answers, AnswerTo, AfterAll;
    AnswersCut(q, calls, answers, i);
    FirstInFirstOut(q, calls[..i], answers[..i]);
    ReadAtEnd(AfterAll(q, calls[..i]), calls[i]);
    StaysAtEnd(q, calls, i, j);
    AnswersCut(q, calls, answers, j);
    AtEnd(AfterAll(q, calls[..j]), calls[j]);
  }

  lemma AtEnd(q: Queue, c: Call)
    requires q.held == [] && !q.writeopen
    ensures c.Reading? ==> AnswerTo(q, c) == Got(Finished, [], [])
  {}

  lemma {:induction false} StaysAtEnd(q: Queue, calls: seq<Call>, i: nat, j: nat)
    requires |q.held| <= PIPESIZE && i <= j < |calls| && forall k :: i <= k < |calls| ==> !calls[k].Writing?
    requires AfterAll(q, calls[..i]).held == [] && !AfterAll(q, calls[..i]).writeopen
    ensures AfterAll(q, calls[..j]).held == [] && !AfterAll(q, calls[..j]).writeopen
  {
    hide After;
    if i < j {
      StaysAtEnd(q, calls, i, j - 1);
      assert calls[..j][..j - 1] == calls[..j - 1];
      EndFollows(AfterAll(q, calls[..j - 1]), calls[j - 1]);
    }
  }

  lemma EndFollows(q: Queue, c: Call)
    requires q.held == [] && !q.writeopen && !c.Writing?
    ensures After(q, c).held == [] && !After(q, c).writeopen
  {}

  /** The answers up to call `i`, and the answer to it. */
  lemma {:induction false} AnswersCut(q: Queue, calls: seq<Call>, answers: seq<Answer>, i: nat)
    requires |q.held| <= PIPESIZE && Answers(q, calls, answers) && i < |calls|
    ensures |answers| == |calls| && Answers(q, calls[..i], answers[..i])
    ensures answers[i] == AnswerTo(AfterAll(q, calls[..i]), calls[i])
  {
    hide AnswerTo, AfterAll;
    forall k | 0 <= k < i
      ensures answers[..i][k] == AnswerTo(AfterAll(q, calls[..i][..k]), calls[..i][k])
    {
      assert calls[..i][..k] == calls[..k];
    }
  }

  /** Any interleaving of calls on the ring is answered as the queue would answer it. */
  method Interleave(p: Channel, calls: seq<Call>) returns (answers: seq<Answer>)
    requires p.Valid()
    modifies p, p.data
    ensures p.Valid()
    ensures Answers(old(p.AsQueue()), calls, answers) && p.AsQueue() == AfterAll(old(p.AsQueue()), calls)
  {
    hide AnswerTo, After;
    answers := [];
    ghost var q := p.AsQueue();
    var i := 0;
    while i < |calls|
      invariant 0 <= i <= |calls|
      invariant p.Valid() && p.AsQueue() == AfterAll(q, calls[..i])
      invariant |answers| == i && AnswersFirst(q, calls, answers)
    {
      var a := OneCall(p, calls[i]);
      AnswersExtend(q, calls, answers, a);
      AfterOne(q, calls, i);
      answers := answers + [a];
      i := i + 1;
    }
    assert calls[..i] == calls;
  }

  lemma AnswersExtend(q: Queue, calls: seq<Call>, answers: seq<Answer>, a: Answer)
    requires |q.held| <= PIPESIZE && |answers| < |calls| && AnswersFirst(q, calls, answers)
    requires a == AnswerAt(q, calls, |answers|)
    ensures AnswersFirst(q, calls, answers + [a])
  {
    hide AnswerAt;
  }

  lemma AfterOne(q: Queue, calls: seq<Call>, i: nat)
    requires |q.held| <= PIPESIZE && i < |calls|
    ensures AfterAll(q, calls[..i + 1]) == After(AfterAll(q, calls[..i]), calls[i])
  {
    hide After;
    assert calls[..i + 1][..i] == calls[..i];
  }

  method OneCall(p: Channel, c: Call) returns (a: Answer)
    requires p.Valid()
    modifies p, p.data
    ensures p.Valid()
    ensures a == AnswerTo(old(p.AsQueue()), c) && p.AsQueue() == After(old(p.AsQueue()), c)
  {
    match c
    case Writing(src, short, killed) =>
      a := WriteCall(p, src, short, killed);
    case Reading(n, room, killed) =>
      a := ReadCall(p, n, room, killed);
    case Closing(writable) =>
      var gone := p.Close(writable);
      a := Closed(gone);
  }

  method WriteCall(p: Channel, src: seq<Byte>, short: bool, killed: bool) returns (a: Answer)
    requires p.Valid()
    modifies p, p.data
    ensures p.Valid()
    ensures var c := Writing(src, short, killed);
            a == AnswerTo(old(p.AsQueue()), c) && p.AsQueue() == After(old(p.AsQueue()), c)
  {
    var status, next := p.Write(src, |src| + (if short then 1 else 0), 0, killed);
    assert src[0..next] == src[..next];
    a := Put(status, src[..next]);
    assert p.Held() == old(p.Held()) + src[..next];
  }

  method ReadCall(p: Channel, n: int, room: nat, killed: bool) returns (a: Answer)
    requires p.Valid()
    modifies p
    ensures p.Valid()
    ensures var c := Reading(n, room, killed);
            a == AnswerTo(old(p.AsQueue()), c) && p.AsQueue() == After(old(p.AsQueue()), c)
  {
    var status, bytes, dropped := p.Read(n, room, killed);
    a := Got(status, bytes, dropped);
  }

  /** A read to memory that is not there delivers nothing, and the byte it took is gone. */
  method DropsAByte(ch: Byte) returns (a: Answer, b: Answer)
    ensures a == Got(Finished, [], [ch]) && b == Got(Asleep, [], [])
  {
    var p := new Channel();
    var put := OneCall(p, Writing([ch], false, false));
    a := OneCall(p, Reading(1, 0, false));
    b := OneCall(p, Reading(1, 1, false));
  }
}
