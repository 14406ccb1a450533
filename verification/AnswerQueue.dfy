/**
 The queue all system-command answers share: consumers reach their own answer
 by popping past the others' and pushing those back, any number of them at a
 time.
 */
module AnswerQueue {
  import opened Wrappers
  import opened JsonValues

  /** `_is_output_for`: the entry's command begins with what was requested. */
  predicate IsOutputFor(entry: Json, requested: string) {
    && entry.Obj? && "command" in entry.members
    && match entry.members["command"]
       case Arr(items) => items != [] && items[0] == Str(requested)
       case Str(text) => text != "" && text[..1] == requested
       case _ => false
  }

  /** The first element of an entry's command: of a list its first item, of a text its first character. */
  function FirstOfCommand(entry: Json): Option<Json> {
    if !entry.Obj? || "command" !in entry.members then None
    else
      match entry.members["command"]
      case Arr(items) => if |items| > 0 then Some(items[0]) else None
      case Str(text) => if |text| > 0 then Some(Str([text[0]])) else None
      case _ => None
  }

  lemma {:induction false} OutputMeans(entry: Json, requested: string)
    ensures IsOutputFor(entry, requested) <==> FirstOfCommand(entry) == Some(Str(requested))
  {
    if entry.Obj? && "command" in entry.members && entry.members["command"].Str? {
      var text := entry.members["command"].text;
      assert text != "" ==> text[..1] == [text[0]];
    }
  }

  /** Where the first answer to a request lies, or the length of the queue. */
  function FirstFor(q: seq<Json>, requested: string): (i: nat)
    ensures i <= |q| && (i < |q| ==> IsOutputFor(q[i], requested))
    ensures forall j | 0 <= j < i :: !IsOutputFor(q[j], requested)
  {
    if q == [] || IsOutputFor(q[0], requested) then 0 else 1 + FirstFor(q[1..], requested)
  }

  // ---------------------------------------------------------------- the table

  datatype Row = Row(id: nat, value: Json)

  function Values(rows: seq<Row>): (values: seq<Json>)
    ensures |values| == |rows| && forall i | 0 <= i < |rows| :: values[i] == rows[i].value
  {
    seq(|rows|, i requires 0 <= i < |rows| => rows[i].value)
  }

  /** One queue table; rows are kept in id order and ids are never reused. */
  class SqliteQueue {
    var rows: seq<Row>
    var nextId: nat

    ghost predicate Valid()
      reads this
    {
      && (forall i, j | 0 <= i < j < |rows| :: rows[i].id < rows[j].id)
      && (forall i | 0 <= i < |rows| :: rows[i].id < nextId)
    }

    function Contents(): seq<Json>
      reads this
    {
      Values(rows)
    }

    constructor ()
      ensures Valid() && Contents() == []
    {
      rows, nextId := [], 1;
    }

    method Push(value: Json)
      requires Valid()
      modifies this
      ensures Valid() && Contents() == old(Contents()) + [value]
      ensures rows == old(rows) + [Row(old(nextId), value)] && nextId == old(nextId) + 1
    {
      rows := rows + [Row(nextId, value)];
      nextId := nextId + 1;
    }

    method Pop() returns (value: Option<Json>)
      requires Valid()
      modifies this
      ensures Valid() && nextId == old(nextId)
      ensures old(Contents()) == [] ==> value == None && Contents() == []
      ensures old(Contents()) != [] ==> value == Some(old(Contents())[0]) && Contents() == old(Contents())[1..]
      ensures rows == if old(rows) == [] then [] else old(rows)[1..]
    {
      if rows == [] {
        return None;
      }
      value := Some(rows[0].value);
      rows := rows[1..];
    }

    method Length() returns (n: nat)
      ensures n == |Contents()|
    {
      n := |rows|;
    }

    method ListAll() returns (values: seq<Json>)
      ensures values == Contents()
    {
      values := Values(rows);
    }

    /** Delete what a caller has shown: rows up to its high-water mark, none that came later. */
    method ClearThrough(maxId: nat)
      requires Valid()
      modifies this
      ensures Valid() && nextId == old(nextId)
      ensures exists n :: 0 <= n <= |old(rows)| && rows == old(rows)[n..] &&
                          (forall i | 0 <= i < n :: old(rows)[i].id <= maxId) &&
                          (forall i | n <= i < |old(rows)| :: old(rows)[i].id > maxId)
    {
      var n := 0;
      while n < |rows| && rows[n].id <= maxId
        invariant 0 <= n <= |rows|
        invariant forall i | 0 <= i < n :: rows[i].id <= maxId
      {
        n := n + 1;
      }
      rows := rows[n..];
    }
  }

  /** What the caller is told when its answer did not arrive in time. */
  function NotFound(requested: string): Json {
    Obj(map[
      "command" := Arr([Str(requested), Null, Null, Null]),
      "result" := Str("ERROR"),
      "message" := Str("The requested command output could not be found."),
      "data" := Obj(map["Response_Was" := Str("To_Fast")])
    ])
  }

  /** The queue after an answer at `i` was taken out from between the others. */
  function Rotated(q: seq<Json>, i: nat): seq<Json>
    requires i < |q|
  {
    q[i + 1..] + q[..i]
  }

  /**
   `get_system_command_output` when nobody else touches the queue: `polls` times
   the deadline is still ahead when the loop looks at the clock.
   */
  method GetSystemCommandOutput(queue: SqliteQueue, requested: string, polls: nat) returns (answer: Json)
    requires queue.Valid()
    modifies queue
    ensures queue.Valid()
    ensures var q, i := old(queue.Contents()), FirstFor(old(queue.Contents()), requested);
            if polls > 0 && i < |q| then answer == q[i] && queue.Contents() == Rotated(q, i)
            else answer == NotFound(requested) && queue.Contents() == q
    ensures var q := old(queue.Contents());
            if polls > 0 && exists i | 0 <= i < |q| :: FirstOfCommand(q[i]) == Some(Str(requested)) then
              exists i | 0 <= i < |q| ::
                && answer == q[i] && queue.Contents() == q[i + 1..] + q[..i]
                && FirstOfCommand(q[i]) == Some(Str(requested))
                && forall j | 0 <= j < i :: FirstOfCommand(q[j]) != Some(Str(requested))
            else
              && queue.Contents() == q && answer.Obj?
              && answer.members.Keys == {"command", "result", "message", "data"}
              && answer.members["command"] == Arr([Str(requested), Null, Null, Null])
              && answer.members["result"] == Str("ERROR")
  {
    ghost var q, i := queue.Contents(), FirstFor(queue.Contents(), requested);
    forall j | 0 <= j < |q| ensures IsOutputFor(q[j], requested) <==> FirstOfCommand(q[j]) == Some(Str(requested)) {
      OutputMeans(q[j], requested);
    }
    var left := polls;
    while left > 0
      invariant 0 <= left && queue.Valid() && queue.Contents() == q
      invariant left > 0 && i < |q| ==> left == polls
      invariant left == 0 ==> polls == 0 || i == |q|
    {
      left := left - 1;
      var peeked := queue.ListAll();
      if FirstFor(peeked, requested) < |peeked| {
        answer := PopUntilAnswer(queue, requested);
        return;
      }
    }
    answer := NotFound(requested);
  }

  lemma {:induction false} TakeFirst(q: seq<Json>, k: nat)
    requires k < |q|
    ensures q[k..][0] == q[k] && q[k..][1..] == q[k + 1..] && q[..k] + [q[k]] == q[..k + 1]
  {
  }

  /** Pop entries, deferring those for others, until one answers the request; then put the others back. */
  method PopUntilAnswer(queue: SqliteQueue, requested: string) returns (answer: Json)
    requires queue.Valid() && FirstFor(queue.Contents(), requested) < |queue.Contents()|
    modifies queue
    ensures queue.Valid()
    ensures var q, i := old(queue.Contents()), FirstFor(old(queue.Contents()), requested);
            answer == q[i] && queue.Contents() == Rotated(q, i)
  {
    ghost var q, i := queue.Contents(), FirstFor(queue.Contents(), requested);
    var deferred: seq<Json> := [];
    var n := queue.Length();
    ghost var k := 0;
    while n > 0
      invariant queue.Valid() && n == |queue.Contents()|
      invariant k <= i < |q| && deferred == q[..k] && queue.Contents() == q[k..]
      decreases |q| - k
    {
      TakeFirst(q, k);
      var entry := queue.Pop();
      if IsOutputFor(entry.value, requested) {
        assert k == i;
        PutBack(queue, deferred);
        return entry.value;
      }
      deferred := deferred + [entry.value];
      k := k + 1;
      n := queue.Length();
    }
    assert false;
    answer := Null;
  }

  method PutBack(queue: SqliteQueue, deferred: seq<Json>)
    requires queue.Valid()
    modifies queue
    ensures queue.Valid() && queue.Contents() == old(queue.Contents()) + deferred
  {
    for k := 0 to |deferred|
      invariant queue.Valid() && queue.Contents() == old(queue.Contents()) + deferred[..k]
    {
      queue.Push(deferred[k]);
    }
  }

  /** Two entries that stay keep their order exactly when the taken answer did not lie between them. */
  lemma {:induction false} OrderAfterTaking(q: seq<Json>, i: nat, p: nat, r: nat) returns (p': nat, r': nat)
    requires i < |q| && p < r < |q| && p != i && r != i
    ensures p' < |q| - 1 && r' < |q| - 1 && Rotated(q, i)[p'] == q[p] && Rotated(q, i)[r'] == q[r]
    ensures p' == (if p < i then |q| - 1 - i + p else p - i - 1)
    ensures p' < r' <==> !(p < i < r)
  {
    p' := if p < i then |q| - 1 - i + p else p - i - 1;
    r' := if r < i then |q| - 1 - i + r else r - i - 1;
  }

  // ---------------------------------------------------------------- any interleaving

  /** Where a consumer stands: peeking, popping towards its answer, or pushing the others' answers back. */
  datatype Consumer =
    | Idle
    | Waiting(requested: string)
    | Collecting(requested: string, deferred: seq<Json>)
    | Restoring(requested: string, left: seq<Json>, data: Option<Json>)

  datatype Returned = Returned(requested: string, answer: Json)

  datatype World = World(queue: seq<Json>, consumers: seq<Consumer>, pushed: seq<Json>, returned: seq<Returned>)

  datatype Action =
    | Produce(answer: Json)
    | Call(consumer: nat, request: string)
    | Step(consumer: nat)
    | TimeOut(consumer: nat)

  function Put(w: World, i: nat, c: Consumer): World
    requires i < |w.consumers|
  {
    w.(consumers := w.consumers[i := c])
  }

  /** One statement of the loop: a peek, a pop, a push, or the return. */
  function StepConsumer(w: World, i: nat): World
    requires i < |w.consumers|
  {
    match w.consumers[i]
    case Idle => w
    case Waiting(requested) =>
      if FirstFor(w.queue, requested) < |w.queue| then Put(w, i, Collecting(requested, [])) else w
    case Collecting(requested, deferred) =>
      if w.queue == [] then Put(w, i, Restoring(requested, deferred, None))
      else
        var head, popped := w.queue[0], w.(queue := w.queue[1..]);
        if IsOutputFor(head, requested) then Put(popped, i, Restoring(requested, deferred, Some(head)))
        else Put(popped, i, Collecting(requested, deferred + [head]))
    case Restoring(requested, left, data) =>
      if left != [] then Put(w.(queue := w.queue + [left[0]]), i, Restoring(requested, left[1..], data))
      else if data.Some? then Put(w.(returned := w.returned + [Returned(requested, data.value)]), i, Idle)
      else Put(w, i, Waiting(requested))
  }

  function Act(w: World, a: Action): World {
    match a
    case Produce(answer) => w.(queue := w.queue + [answer], pushed := w.pushed + [answer])
    case Call(i, requested) =>
      if i < |w.consumers| && w.consumers[i].Idle? then Put(w, i, Waiting(requested)) else w
    case Step(i) => if i < |w.consumers| then StepConsumer(w, i) else w
    case TimeOut(i) => if i < |w.consumers| && w.consumers[i].Waiting? then Put(w, i, Idle) else w
  }

  function Run(w: World, actions: seq<Action>): World
    decreases |actions|
  {
    if actions == [] then w else Run(Act(w, actions[0]), actions[1..])
  }

  /**
   The turns around a scan: a producer's answer goes to the end of the queue, a call of an idle one begins to wait,
   a deadline sends a waiting one home, and one that found its queue drained by
   others waits again once it put the rest back.
   */
  lemma {:induction false} QuietTurns(w: World, i: nat, requested: string)
    requires i < |w.consumers|
    ensures w.consumers[i] == Idle ==>
              Act(w, Call(i, requested)) == w.(consumers := w.consumers[i := Waiting(requested)])
    ensures w.consumers[i] == Waiting(requested) ==> Act(w, TimeOut(i)) == w.(consumers := w.consumers[i := Idle])
    ensures w.consumers[i] == Restoring(requested, [], None) ==>
              Act(w, Step(i)) == w.(consumers := w.consumers[i := Waiting(requested)])
    ensures w.consumers[i] == Collecting(requested, []) && w.queue == [] ==>
              Act(w, Step(i)) == w.(consumers := w.consumers[i := Restoring(requested, [], None)])
    ensures forall answer ::
              Act(w, Produce(answer)) == w.(queue := w.queue + [answer], pushed := w.pushed + [answer])
  {
  }

  /** How often an answer occurs. */
  function Count(answers: seq<Json>, x: Json): nat {
    if answers == [] then 0 else (if answers[0] == x then 1 else 0) + Count(answers[1..], x)
  }

  lemma {:induction false} CountConcat(a: seq<Json>, b: seq<Json>, x: Json)
    ensures Count(a + b, x) == Count(a, x) + Count(b, x)
  {
    if a == [] {
      assert a + b == b;
    } else {
      assert (a + b)[1..] == a[1..] + b;
      CountConcat(a[1..], b, x);
    }
  }

  /** How many copies of an answer a consumer has taken off the queue and neither pushed back nor returned. */
  function Held(c: Consumer, x: Json): nat {
    match c
    case Collecting(_, deferred) => Count(deferred, x)
    case Restoring(_, left, data) => Count(left, x) + if data == Some(x) then 1 else 0
    case _ => 0
  }

  function AllHeld(cs: seq<Consumer>, x: Json): nat {
    if cs == [] then 0 else Held(cs[0], x) + AllHeld(cs[1..], x)
  }

  function Answers(returned: seq<Returned>): (answers: seq<Json>)
    ensures |answers| == |returned|
  {
    seq(|returned|, i requires 0 <= i < |returned| => returned[i].answer)
  }

  lemma {:induction false} HeldUpdate(cs: seq<Consumer>, i: nat, c: Consumer, x: Json)
    requires i < |cs|
    ensures AllHeld(cs[i := c], x) == AllHeld(cs, x) - Held(cs[i], x) + Held(c, x)
  {
    if i == 0 {
      assert cs[0 := c][1..] == cs[1..];
    } else {
      assert cs[i := c][0] == cs[0] && cs[i := c][1..] == cs[1..][i - 1 := c];
      HeldUpdate(cs[1..], i - 1, c, x);
    }
  }

  /** Every copy of an answer ever pushed is in one place: the queue, one consumer's hands, or returned once. */
  ghost predicate Balanced(w: World, x: Json) {
    Count(w.pushed, x) == Count(w.queue, x) + AllHeld(w.consumers, x) + Count(Answers(w.returned), x)
  }

  ghost predicate Conserved(w: World) {
    && (forall x :: Balanced(w, x))
    && (forall k | 0 <= k < |w.returned| :: IsOutputFor(w.returned[k].answer, w.returned[k].requested))
    && (forall i | 0 <= i < |w.consumers| && w.consumers[i].Restoring? && w.consumers[i].data.Some? ::
          IsOutputFor(w.consumers[i].data.value, w.consumers[i].requested))
  }

  lemma {:induction false} CountMore(a: seq<Json>, y: Json, x: Json)
    ensures Count(a + [y], x) == Count(a, x) + if y == x then 1 else 0
  {
    CountConcat(a, [y], x);
    assert [y][1..] == [];
  }

  lemma {:induction false} PopBalances(w: World, i: nat, x: Json)
    requires i < |w.consumers| && Balanced(w, x) && w.consumers[i].Collecting?
    ensures Balanced(StepConsumer(w, i), x)
  {
    var requested, deferred := w.consumers[i].requested, w.consumers[i].deferred;
    if w.queue == [] {
      HeldUpdate(w.consumers, i, Restoring(requested, deferred, None), x);
    } else {
      var head := w.queue[0];
      var next := if IsOutputFor(head, requested) then Restoring(requested, deferred, Some(head))
                  else Collecting(requested, deferred + [head]);
      CountMore(deferred, head, x);
      HeldUpdate(w.consumers, i, next, x);
      assert Held(next, x) == Held(w.consumers[i], x) + if head == x then 1 else 0;
      assert StepConsumer(w, i) == Put(w.(queue := w.queue[1..]), i, next);
    }
  }

  lemma {:induction false} PushBalances(w: World, i: nat, x: Json)
    requires i < |w.consumers| && Balanced(w, x) && w.consumers[i].Restoring?
    ensures Balanced(StepConsumer(w, i), x)
  {
    var v, left, data := StepConsumer(w, i), w.consumers[i].left, w.consumers[i].data;
    HeldUpdate(w.consumers, i, v.consumers[i], x);
    assert v.consumers == w.consumers[i := v.consumers[i]];
    if left != [] {
      CountMore(w.queue, left[0], x);
    } else if data.Some? {
      assert Answers(v.returned) == Answers(w.returned) + [data.value];
      CountMore(Answers(w.returned), data.value, x);
    }
  }

  /** What one step takes from one place it puts in another. */
  lemma {:induction false} StepBalances(w: World, i: nat, x: Json)
    requires i < |w.consumers| && Balanced(w, x)
    ensures Balanced(StepConsumer(w, i), x)
  {
    match w.consumers[i]
    case Idle =>
    case Waiting(requested) => HeldUpdate(w.consumers, i, Collecting(requested, []), x);
    case Collecting(_, _) => PopBalances(w, i, x);
    case Restoring(_, _, _) => PushBalances(w, i, x);
  }

  lemma {:induction false} ActConserves(w: World, a: Action)
    requires Conserved(w)
    ensures Conserved(Act(w, a))
  {
    var v := Act(w, a);
    forall x ensures Balanced(v, x) {
      assert Balanced(w, x);
      match a
      case Produce(answer) =>
        CountConcat(w.queue, [answer], x);
        CountConcat(w.pushed, [answer], x);
      case Call(i, requested) =>
        if i < |w.consumers| {
          HeldUpdate(w.consumers, i, Waiting(requested), x);
        }
      case Step(i) =>
        if i < |w.consumers| {
          StepBalances(w, i, x);
        }
      case TimeOut(i) =>
        if i < |w.consumers| {
          HeldUpdate(w.consumers, i, Idle, x);
        }
    }
  }

  /** Conservation over every interleaving of producers and consumers. */
  lemma {:induction false} EveryInterleavingConserves(w: World, actions: seq<Action>)
    requires Conserved(w)
    ensures Conserved(Run(w, actions))
    decreases |actions|
  {
    if actions != [] {
      ActConserves(w, actions[0]);
      EveryInterleavingConserves(Act(w, actions[0]), actions[1..]);
    }
  }

  lemma {:induction false} NothingHeld(cs: seq<Consumer>, x: Json)
    requires forall i | 0 <= i < |cs| :: cs[i].Idle? || cs[i].Waiting?
    ensures AllHeld(cs, x) == 0
  {
    if cs != [] {
      NothingHeld(cs[1..], x);
    }
  }

  function Start(consumers: nat): World {
    World([], seq(consumers, _ => Idle), [], [])
  }

  /**
   From an empty queue: once no consumer is in the middle of a scan, every pushed
   answer was returned once or is still queued.
   */
  lemma {:induction false} NothingIsLost(consumers: nat, actions: seq<Action>, x: Json)
    requires forall i | 0 <= i < |Run(Start(consumers), actions).consumers| ::
               Run(Start(consumers), actions).consumers[i].Idle? || Run(Start(consumers), actions).consumers[i].Waiting?
    ensures var w := Run(Start(consumers), actions);
            Count(w.pushed, x) == Count(w.queue, x) + Count(Answers(w.returned), x)
  {
    var start := Start(consumers);
    forall y ensures Balanced(start, y) {
      NothingHeld(start.consumers, y);
    }
    EveryInterleavingConserves(start, actions);
    NothingHeld(Run(start, actions).consumers, x);
    assert Balanced(Run(start, actions), x);
  }

  // ---------------------------------------------------------------- an undisturbed consumer

  function Alone(w: World, i: nat, steps: nat): World
    requires i < |w.consumers|
    decreases steps
  {
    if steps == 0 || i >= |StepConsumer(w, i).consumers| then w else Alone(StepConsumer(w, i), i, steps - 1)
  }

  lemma {:induction false} DeferFirst(q: seq<Json>, deferred: seq<Json>, k: nat)
    requires 0 < k < |q|
    ensures q[1..][k..] == q[k + 1..] && q[1..][k - 1] == q[k]
    ensures deferred + [q[0]] + q[1..][..k - 1] == deferred + q[..k]
  {
  }

  lemma {:induction false} PopsReachTheAnswer(w: World, i: nat, requested: string, deferred: seq<Json>, more: nat)
    requires i < |w.consumers| && w.consumers[i] == Collecting(requested, deferred)
    requires FirstFor(w.queue, requested) < |w.queue|
    ensures var k := FirstFor(w.queue, requested);
            var restoring := Restoring(requested, deferred + w.queue[..k], Some(w.queue[k]));
            Alone(w, i, k + 1 + more) == Alone(Put(w.(queue := w.queue[k + 1..]), i, restoring), i, more)
    decreases |w.queue|
  {
    var k, next := FirstFor(w.queue, requested), StepConsumer(w, i);
    if k == 0 {
      assert deferred + w.queue[..0] == deferred;
    } else {
      PopsReachTheAnswer(next, i, requested, deferred + [w.queue[0]], more);
      DeferFirst(w.queue, deferred, k);
      var data := Restoring(requested, deferred + w.queue[..k], Some(w.queue[k]));
      assert next.consumers[i := data] == w.consumers[i := data];
    }
  }

  lemma {:induction false} PushesRestore(w: World, i: nat, requested: string, left: seq<Json>, data: Json)
    requires i < |w.consumers| && w.consumers[i] == Restoring(requested, left, Some(data))
    ensures Alone(w, i, |left| + 1) ==
            Put(w.(queue := w.queue + left, returned := w.returned + [Returned(requested, data)]), i, Idle)
    decreases |left|
  {
    var next := StepConsumer(w, i);
    if left == [] {
      assert w.queue + left == w.queue;
      assert Alone(next, i, 0) == next;
    } else {
      PushesRestore(next, i, requested, left[1..], data);
      assert w.queue + [left[0]] + left[1..] == w.queue + left;
      assert next.consumers[i := Idle] == w.consumers[i := Idle];
    }
  }

  /** A consumer that nobody disturbs takes its first answer and leaves the rotated queue, as the method does. */
  lemma {:induction false} UndisturbedConsumer(w: World, i: nat, requested: string)
    requires i < |w.consumers| && w.consumers[i] == Waiting(requested)
    requires FirstFor(w.queue, requested) < |w.queue|
    ensures var k := FirstFor(w.queue, requested);
            Alone(w, i, 1 + (k + 1 + (k + 1))) ==
            Put(w.(queue := Rotated(w.queue, k), returned := w.returned + [Returned(requested, w.queue[k])]), i, Idle)
  {
    var k, collecting := FirstFor(w.queue, requested), StepConsumer(w, i);
    PopsReachTheAnswer(collecting, i, requested, [], k + 1);
    assert [] + w.queue[..k] == w.queue[..k];
    var restoring := Restoring(requested, w.queue[..k], Some(w.queue[k]));
    var v := Put(collecting.(queue := w.queue[k + 1..]), i, restoring);
    PushesRestore(v, i, requested, w.queue[..k], w.queue[k]);
    assert v.consumers[i := Idle] == w.consumers[i := Idle];
  }
}
