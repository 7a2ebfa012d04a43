/** The shared-import queue as an object, and the fate of every item over any run of appends and rounds. */
module SharedQueue {
  import opened Prelude
  import opened Lists
  import opened Texts
  import opened SharedImport

  // ------------------------------------------------------------------ the store

  lemma {:induction false} FailedItemsAppend(a: seq<SharedItem>, b: seq<SharedItem>)
    ensures FailedItems(a + b) == FailedItems(a) + FailedItems(b)
  {
    hide PayloadOf, MarkedFailed;
    if a == [] {
      assert a + b == b;
    } else {
      FailedItemsAppend(a[1..], b);
      assert (a + b)[1..] == a[1..] + b;
    }
  }

  lemma {:induction false} AllNotesAppend(a: seq<SharedItem>, b: seq<SharedItem>)
    ensures AllNotes(a + b) == AllNotes(a) + AllNotes(b)
  {
    hide NotesOf;
    if a == [] {
      assert a + b == b && [] + AllNotes(b) == AllNotes(b);
    } else {
      AllNotesAppend(a[1..], b);
      assert (a + b)[1..] == a[1..] + b;
      Regroup(NotesOf(a[0]), AllNotes(a[1..]), AllNotes(b));
    }
  }

  lemma {:induction false} AllTasksAppend(a: seq<SharedItem>, b: seq<SharedItem>)
    ensures AllTasks(a + b) == AllTasks(a) + AllTasks(b)
  {
    hide TasksOf;
    if a == [] {
      assert a + b == b && [] + AllTasks(b) == AllTasks(b);
    } else {
      AllTasksAppend(a[1..], b);
      assert (a + b)[1..] == a[1..] + b;
      Regroup(TasksOf(a[0]), AllTasks(a[1..]), AllTasks(b));
    }
  }

  lemma {:induction false} BatchAppend(item: SharedItem, a: seq<Draft>, b: seq<Draft>)
    ensures BatchTasks(item, a + b) == BatchTasks(item, a) + BatchTasks(item, b)
  {
    hide TaskFrom, Trim;
    if a == [] {
      assert a + b == b;
    } else {
      BatchAppend(item, a[1..], b);
      assert (a + b)[1..] == a[1..] + b;
    }
  }

  lemma CreatedAppend(a: seq<NewTask>, b: seq<NewTask>, now: int)
    ensures Created(a + b, now) == Created(a, now) + Created(b, now)
  {
  }

  /** A payload whose tasks have been created now. */
  function CreatedPayload(payload: Payload, now: int): Payload {
    if payload.Import? then payload.(tasks := Created(payload.tasks, now)) else payload
  }

  method CreateTask(item: SharedItem, title: string, overrideBody: Option<string>, now: int) returns (task: NewTask)
    ensures [task] == Created([TaskFrom(item, title, overrideBody)], now)
  {
    task := TaskFrom(item, title, overrideBody).(orderIndex := Some(now));
  }

  /** buildSharedImportPayload. */
  method BuildSharedImportPayload(item: SharedItem, now: int) returns (payload: Payload)
    ensures payload == CreatedPayload(PayloadOf(item), now)
  {
    hide ImportedNoteText, ResolvedTaskTitle, TaskFrom, Trim;
    match ResolvedDestination(item) {
      case ToNote =>
        var text := ImportedNoteText(item);
        if text == "" { return Rejected("Shared content was empty."); }
        return Import([text], []);
      case ToTask =>
        var title := ResolvedTaskTitle(item);
        if title == "" { return Rejected("Unable to determine a task title."); }
        var task := CreateTask(item, title, None, now);
        return Import([], [task]);
      case ToTaskBatch =>
        var batchTasks := [];
        for i := 0 to |item.taskDrafts|
          invariant batchTasks == Created(BatchTasks(item, item.taskDrafts[..i]), now)
        {
          var draft := item.taskDrafts[i];
          BatchAppend(item, item.taskDrafts[..i], [draft]);
          assert item.taskDrafts[..i + 1] == item.taskDrafts[..i] + [draft];
          if Trim(draft.title) != "" {
            var task := CreateTask(item, Trim(draft.title), draft.notes, now);
            var created := TaskFrom(item, Trim(draft.title), draft.notes);
            CreatedAppend(BatchTasks(item, item.taskDrafts[..i]), [created], now);
            batchTasks := batchTasks + [task];
          }
        }
        assert item.taskDrafts == item.taskDrafts[..|item.taskDrafts|];
        if batchTasks == [] { return Rejected("No valid task items were found in the shared list."); }
        return Import([], batchTasks);
    }
  }

  class ImportQueue {
    var items: seq<SharedItem>
    var notes: seq<string>
    var tasks: seq<NewTask>
    var pendingSharedImportCount: int
    var lastSharedImportError: Option<string>

    ghost function State(): Share
      reads this
    {
      Share(items, notes, tasks)
    }

    constructor ()
      ensures items == [] && notes == [] && tasks == []
    {
      items, notes, tasks := [], [], [];
      pendingSharedImportCount, lastSharedImportError := 0, None;
    }

    /** What the share extension does with a new item. */
    method AppendItem(item: SharedItem)
      modifies this`items
      ensures State() == Step(old(State()), Append(item))
    {
      items := items + [item];
    }

    /** applySharedImports. The tasks it is given have no parent, so its parent check never applies. */
    method ApplySharedImports(importedNotes: seq<string>, importedTasks: seq<NewTask>, base: int)
      modifies this`notes, this`tasks
      ensures notes == old(notes) + importedNotes
      ensures tasks == old(tasks) + Prepared(importedTasks, base)
    {
      notes := notes + importedNotes;
      var preparedTasks := [];
      for offset := 0 to |importedTasks|
        invariant preparedTasks == Prepared(importedTasks, base)[..offset]
      {
        var newTask := importedTasks[offset];
        if newTask.orderIndex == None {
          newTask := newTask.(orderIndex := Some(base + offset));
        }
        preparedTasks := preparedTasks + [newTask];
      }
      tasks := tasks + preparedTasks;
    }

    /** processSharedItemsOnBackgroundQueue, as one step at one time, in milliseconds. */
    method ProcessSharedItems(now: int)
      modifies this
      ensures State() == Step(old(State()), Round(now))
      ensures pendingSharedImportCount == |items|
      ensures lastSharedImportError == if items == [] then None else items[0].lastError
    {
      hide PayloadOf;
      if items == [] {
        pendingSharedImportCount, lastSharedImportError := 0, None;
        assert Created([], now) == [];
        return;
      }
      var failedItems, importedNotes, importedTasks := [], [], [];
      for i := 0 to |items|
        invariant items == old(items) && notes == old(notes) && tasks == old(tasks)
        invariant failedItems == FailedItems(items[..i])
        invariant importedNotes == AllNotes(items[..i])
        invariant importedTasks == Created(AllTasks(items[..i]), now)
      {
        var item := items[i];
        assert items[..i + 1] == items[..i] + [item];
        FailedItemsAppend(items[..i], [item]);
        AllNotesAppend(items[..i], [item]);
        AllTasksAppend(items[..i], [item]);
        SamePayload(item, MarkedPending(item));
        CreatedAppend(AllTasks(items[..i]), TasksOf(item), now);
        var payload := BuildSharedImportPayload(MarkedPending(item), now);
        match payload {
          case Import(moreNotes, moreTasks) =>
            importedNotes := importedNotes + moreNotes;
            importedTasks := importedTasks + moreTasks;
          case Rejected(reason) =>
            failedItems := failedItems + [MarkedFailed(item, reason)];
        }
      }
      assert items[..|items|] == items;
      items := failedItems;
      ApplySharedImports(importedNotes, importedTasks, now);
      pendingSharedImportCount := |failedItems|;
      lastSharedImportError := if failedItems == [] then None else failedItems[0].lastError;
    }
  }

  lemma {:induction false} BatchUnnumbered(item: SharedItem, drafts: seq<Draft>)
    ensures forall t :: t in BatchTasks(item, drafts) ==> t.orderIndex == None
  {
    if drafts != [] {
      BatchUnnumbered(item, drafts[1..]);
    }
  }

  lemma {:induction false} UnnumberedTasks(queue: seq<SharedItem>)
    ensures forall t :: t in AllTasks(queue) ==> t.orderIndex == None
  {
    if queue != [] {
      BatchUnnumbered(queue[0], queue[0].taskDrafts);
      UnnumberedTasks(queue[1..]);
    }
  }

  // ---------------------------------------------------------------------- runs

  datatype QueueOp = Append(item: SharedItem) | Round(now: int)

  datatype Share = Share(items: seq<SharedItem>, notes: seq<string>, tasks: seq<NewTask>)

  /** What AppendItem and ProcessSharedItems do to the state. */
  function Step(s: Share, op: QueueOp): Share {
    match op
    case Append(item) => s.(items := s.items + [item])
    case Round(now) =>
      Share(FailedItems(s.items), s.notes + AllNotes(s.items), s.tasks + Created(AllTasks(s.items), now))
  }

  function Run(s: Share, ops: seq<QueueOp>): Share
    decreases |ops|
  {
    if ops == [] then s else Run(Step(s, ops[0]), ops[1..])
  }

  function Rounds(ops: seq<QueueOp>): nat {
    if ops == [] then 0 else if ops[0].Round? then 1 + Rounds(ops[1..]) else Rounds(ops[1..])
  }

  /** What is left in the queue of an item that has been through this many rounds. */
  function Standing(item: SharedItem, rounds: nat): seq<SharedItem> {
    if rounds == 0 then [item]
    else if Fails(item) then
      [item.(status := Failed, lastError := Some(PayloadOf(item).reason), retryCount := item.retryCount + rounds)]
    else []
  }

  function AllStanding(items: seq<SharedItem>, rounds: nat): seq<SharedItem> {
    if items == [] then [] else Standing(items[0], rounds) + AllStanding(items[1..], rounds)
  }

  /** The fate of the items appended during the run, each with the rounds that came after it. */
  function AppendedStanding(ops: seq<QueueOp>): seq<SharedItem> {
    if ops == [] then []
    else match ops[0]
      case Append(item) => Standing(item, Rounds(ops[1..])) + AppendedStanding(ops[1..])
      case Round(_) => AppendedStanding(ops[1..])
  }

  /** The appended items that a later round looked at, in order. */
  function Seen(ops: seq<QueueOp>): seq<SharedItem> {
    if ops == [] then []
    else match ops[0]
      case Append(item) => if Rounds(ops[1..]) > 0 then [item] + Seen(ops[1..]) else Seen(ops[1..])
      case Round(_) => Seen(ops[1..])
  }

  lemma {:induction false} StandingAppend(a: seq<SharedItem>, b: seq<SharedItem>, rounds: nat)
    ensures AllStanding(a + b, rounds) == AllStanding(a, rounds) + AllStanding(b, rounds)
  {
    hide Standing;
    if a == [] {
      assert a + b == b && [] + AllStanding(b, rounds) == AllStanding(b, rounds);
    } else {
      StandingAppend(a[1..], b, rounds);
      assert (a + b)[1..] == a[1..] + b;
      Regroup(Standing(a[0], rounds), AllStanding(a[1..], rounds), AllStanding(b, rounds));
    }
  }

  lemma {:induction false} FreshStanding(items: seq<SharedItem>)
    ensures AllStanding(items, 0) == items
  {
    if items != [] {
      FreshStanding(items[1..]);
    }
  }

  /** One round, and then some more. */
  lemma {:induction false} RoundStanding(items: seq<SharedItem>, rounds: nat)
    ensures AllStanding(FailedItems(items), rounds) == AllStanding(items, rounds + 1)
  {
    hide PayloadOf;
    if items != [] {
      RoundStanding(items[1..], rounds);
      if Fails(items[0]) {
        var marked := MarkedFailed(items[0], PayloadOf(items[0]).reason);
        SamePayload(items[0], marked);
        StandingAppend([marked], FailedItems(items[1..]), rounds);
        assert Standing(marked, rounds) == Standing(items[0], rounds + 1);
      }
    }
  }

  lemma OneMore(items: seq<SharedItem>, item: SharedItem, rounds: nat, after: seq<SharedItem>)
    ensures AllStanding(items + [item], rounds) + after == AllStanding(items, rounds) + (Standing(item, rounds) + after)
  {
    hide Standing;
    StandingAppend(items, [item], rounds);
    assert AllStanding([item], rounds) == Standing(item, rounds) + [];
    assert Standing(item, rounds) + [] == Standing(item, rounds);
    assert (AllStanding(items, rounds) + Standing(item, rounds)) + after
        == AllStanding(items, rounds) + (Standing(item, rounds) + after);
  }

  /** The queue after any run: every item that succeeds is gone after one round; every item that fails is
      still there, in order, with one retry more for each round it has been through. */
  lemma {:induction false} QueueFate(s: Share, ops: seq<QueueOp>)
    ensures Run(s, ops).items == AllStanding(s.items, Rounds(ops)) + AppendedStanding(ops)
    decreases |ops|
  {
    hide PayloadOf, Standing, AllStanding, FailedItems, AllNotes, AllTasks;
    if ops == [] {
      FreshStanding(s.items);
      assert s.items + [] == s.items;
    } else {
      QueueFate(Step(s, ops[0]), ops[1..]);
      match ops[0] {
        case Append(item) =>
          OneMore(s.items, item, Rounds(ops[1..]), AppendedStanding(ops[1..]));
        case Round(_) =>
          RoundStanding(s.items, Rounds(ops[1..]));
      }
    }
  }

  /** What failed once yields nothing later. */
  lemma {:induction false} FailedYieldNothing(items: seq<SharedItem>)
    ensures AllNotes(FailedItems(items)) == [] && AllTasks(FailedItems(items)) == []
  {
    hide PayloadOf;
    if items != [] {
      FailedYieldNothing(items[1..]);
      if Fails(items[0]) {
        SamePayload(items[0], MarkedFailed(items[0], PayloadOf(items[0]).reason));
      }
    }
  }

  lemma {:induction false} UnnumberedAppend(a: seq<NewTask>, b: seq<NewTask>)
    ensures Unnumbered(a + b) == Unnumbered(a) + Unnumbered(b)
  {
  }

  lemma UnnumberedCreated(items: seq<SharedItem>, now: int)
    ensures Unnumbered(Created(AllTasks(items), now)) == AllTasks(items)
  {
    UnnumberedTasks(items);
  }

  function SeenFirst(s: Share, ops: seq<QueueOp>): seq<SharedItem> {
    if Rounds(ops) > 0 then s.items + Seen(ops) else Seen(ops)
  }

  lemma {:induction false} NothingSeen(ops: seq<QueueOp>)
    requires Rounds(ops) == 0
    ensures Seen(ops) == []
  {
    if ops != [] {
      NothingSeen(ops[1..]);
    }
  }

  /** An item that joins the queue is seen with it. */
  lemma AppendSeen(s: Share, item: SharedItem, rest: seq<QueueOp>)
    ensures SeenFirst(Step(s, Append(item)), rest) == SeenFirst(s, [Append(item)] + rest)
  {
    assert ([Append(item)] + rest)[1..] == rest;
    if Rounds(rest) == 0 { NothingSeen(rest); }
    assert (s.items + [item]) + Seen(rest) == s.items + ([item] + Seen(rest));
  }

  lemma RoundSeen(s: Share, now: int, rest: seq<QueueOp>)
    ensures SeenFirst(s, [Round(now)] + rest) == s.items + Seen(rest)
  {
    assert ([Round(now)] + rest)[1..] == rest;
  }

  /** What was imported over any run: the notes and tasks of every item seen by some round, each item once, in
      the order in which the items came. */
  lemma {:induction false} ImportedOnce(s: Share, ops: seq<QueueOp>)
    ensures Run(s, ops).notes == s.notes + AllNotes(SeenFirst(s, ops))
    ensures Unnumbered(Run(s, ops).tasks) == Unnumbered(s.tasks) + AllTasks(SeenFirst(s, ops))
    decreases |ops|
  {
    if ops == [] {
      assert s.notes + [] == s.notes && Unnumbered(s.tasks) + [] == Unnumbered(s.tasks);
    } else {
      hide SeenFirst, AllNotes, AllTasks, Unnumbered, Created, FailedItems;
      var rest := ops[1..];
      ImportedOnce(Step(s, ops[0]), rest);
      assert ops == [ops[0]] + rest;
      match ops[0] {
        case Append(item) => AppendSeen(s, item, rest);
        case Round(now) =>
          RoundSeen(s, now, rest);
          ImportStep(s, now, rest);
      }
    }
  }

  /** Whatever failed in this round adds nothing to what later rounds import. */
  lemma OnlyNewYield(items: seq<SharedItem>, seen: seq<SharedItem>)
    ensures AllNotes(FailedItems(items) + seen) == AllNotes(seen)
    ensures AllTasks(FailedItems(items) + seen) == AllTasks(seen)
  {
    hide PayloadOf;
    FailedYieldNothing(items);
    AllNotesAppend(FailedItems(items), seen);
    AllTasksAppend(FailedItems(items), seen);
    assert [] + AllNotes(seen) == AllNotes(seen) && [] + AllTasks(seen) == AllTasks(seen);
  }

  lemma ImportStep(s: Share, now: int, rest: seq<QueueOp>)
    ensures var s' := Step(s, Round(now));
            s'.notes + AllNotes(SeenFirst(s', rest)) == s.notes + AllNotes(s.items + Seen(rest))
            && Unnumbered(s'.tasks) + AllTasks(SeenFirst(s', rest)) ==
               Unnumbered(s.tasks) + AllTasks(s.items + Seen(rest))
  {
    hide PayloadOf, FailedItems, AllNotes, AllTasks, Created, Unnumbered;
    var s' := Step(s, Round(now));
    OnlyNewYield(s.items, Seen(rest));
    AllNotesAppend(s.items, Seen(rest));
    AllTasksAppend(s.items, Seen(rest));
    UnnumberedAppend(s.tasks, Created(AllTasks(s.items), now));
    UnnumberedCreated(s.items, now);
    assert (s.notes + AllNotes(s.items)) + AllNotes(Seen(rest)) == s.notes + (AllNotes(s.items) + AllNotes(Seen(rest)));
  }
}
