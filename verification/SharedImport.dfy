/** Items shared from other apps: which notes and tasks an item becomes, when it is rejected, and what one
    processing round makes of a queue. */
module SharedImport {
  import opened Prelude
  import opened Texts
  import TaskModel

  type Date = TaskModel.Date

  datatype Destination = ToTask | ToNote | ToTaskBatch

  datatype Status = Pending | Failed

  datatype Draft = Draft(title: string, notes: Option<string>)

  /** importedOn is the import timestamp as the date formatter writes it. */
  datatype SharedItem = SharedItem(
    id: string,
    title: string,
    url: Option<string>,
    text: Option<string>,
    sourceApp: Option<string>,
    categories: seq<string>,
    priority: TaskModel.Priority,
    dueDate: Option<Date>,
    reminderDate: Option<Date>,
    destination: Destination,
    taskDrafts: seq<Draft>,
    importedOn: string,
    wasTruncated: bool,
    status: Status,
    lastError: Option<string>,
    retryCount: int)

  /** orderIndex is absent until the task is created. */
  datatype NewTask = NewTask(
    title: string,
    categories: seq<string>,
    priority: TaskModel.Priority,
    dueDate: Option<Date>,
    taskNotes: Option<string>,
    reminderDate: Option<Date>,
    orderIndex: Option<int>)

  datatype Payload = Import(notes: seq<string>, tasks: seq<NewTask>) | Rejected(reason: string)

  function MarkedPending(item: SharedItem): SharedItem {
    item.(status := Pending, lastError := None)
  }

  function MarkedFailed(item: SharedItem, reason: string): SharedItem {
    item.(status := Failed, lastError := Some(reason), retryCount := item.retryCount + 1)
  }

  // ----------------------------------------------------------------- payloads

  /** The trimmed text of an optional field, when there is any. */
  function Section(field: Option<string>): seq<string> {
    if field.Some? && Trim(field.value) != "" then [Trim(field.value)] else []
  }

  function AttributionLine(item: SharedItem): string {
    var source := Section(item.sourceApp);
    "Imported from " + (if source != [] then source[0] else "Share Sheet") + " on " + item.importedOn
  }

  function Closing(item: SharedItem): seq<string> {
    [AttributionLine(item)] + (if item.wasTruncated then ["Import truncated to 10,000 characters."] else [])
  }

  function ImportedTaskNotes(item: SharedItem, overrideBody: Option<string>): string {
    var body := if overrideBody.Some? then overrideBody else item.text;
    Trim(Joined(Section(item.url) + Section(body) + Closing(item), "\n\n"))
  }

  function ImportedNoteText(item: SharedItem): string {
    var heading := if Trim(item.title) != "" then ["# " + Trim(item.title)] else [];
    Trim(Joined(heading + Section(item.text) + Section(item.url) + Closing(item), "\n\n"))
  }

  function ResolvedDestination(item: SharedItem): Destination {
    if |item.taskDrafts| > 1 then ToTaskBatch else item.destination
  }

  function ResolvedTaskTitle(item: SharedItem): string {
    var text := Section(item.text);
    if Trim(item.title) != "" then Trim(item.title)
    else if text == [] then ""
    else
      var words := Words(text[0]);
      Joined(if |words| > 6 then words[..6] else words, " ")
  }

  function TaskFrom(item: SharedItem, title: string, overrideBody: Option<string>): NewTask {
    var notes := ImportedTaskNotes(item, overrideBody);
    NewTask(title, item.categories, item.priority, item.dueDate, if notes == "" then None else Some(notes),
            item.reminderDate, None)
  }

  /** One task per draft whose title is not blank. */
  function BatchTasks(item: SharedItem, drafts: seq<Draft>): seq<NewTask> {
    if drafts == [] then []
    else if Trim(drafts[0].title) == "" then BatchTasks(item, drafts[1..])
    else [TaskFrom(item, Trim(drafts[0].title), drafts[0].notes)] + BatchTasks(item, drafts[1..])
  }

  function PayloadOf(item: SharedItem): Payload {
    match ResolvedDestination(item)
    case ToNote =>
      var text := ImportedNoteText(item);
      if text == "" then Rejected("Shared content was empty.") else Import([text], [])
    case ToTask =>
      var title := ResolvedTaskTitle(item);
      if title == "" then Rejected("Unable to determine a task title.") else Import([], [TaskFrom(item, title, None)])
    case ToTaskBatch =>
      var tasks := BatchTasks(item, item.taskDrafts);
      if tasks == [] then Rejected("No valid task items were found in the shared list.") else Import([], tasks)
  }

  predicate Fails(item: SharedItem) {
    PayloadOf(item).Rejected?
  }

  // ------------------------------------------------------------ what is rejected

  lemma AttributionShows(item: SharedItem, front: seq<string>)
    ensures Trim(Joined(front + Closing(item), "\n\n")) != ""
  {
    var parts := front + Closing(item);
    assert AttributionLine(item)[0] == 'I';
    assert parts[|front|] == AttributionLine(item);
    JoinedHolds(parts, "\n\n", |front|, 'I');
  }

  lemma {:induction false} BatchEmpty(item: SharedItem, drafts: seq<Draft>)
    ensures BatchTasks(item, drafts) == [] <==> forall d :: d in drafts ==> AllBlank(d.title)
  {
    if drafts != [] {
      BatchEmpty(item, drafts[1..]);
      assert drafts[0] in drafts;
    }
  }

  lemma TitleMissing(item: SharedItem)
    ensures ResolvedTaskTitle(item) == "" <==> AllBlank(item.title) && (item.text.Some? ==> AllBlank(item.text.value))
  {
    var text := Section(item.text);
    if Trim(item.title) == "" && text != [] {
      var words := Words(text[0]);
      assert text[0][0] in text[0];
      assert words != [] && words[0] in words;
    }
  }

  /** An item is rejected exactly when it becomes tasks and no title can be found; a note is never rejected,
      whatever it holds, because its attribution line is never blank. */
  lemma RejectedIffUntitled(item: SharedItem)
    ensures Fails(item) <==>
      match ResolvedDestination(item)
      case ToNote => false
      case ToTask => AllBlank(item.title) && (item.text.Some? ==> AllBlank(item.text.value))
      case ToTaskBatch => forall d :: d in item.taskDrafts ==> AllBlank(d.title)
  {
    var heading := if Trim(item.title) != "" then ["# " + Trim(item.title)] else [];
    AttributionShows(item, heading + Section(item.text) + Section(item.url));
    TitleMissing(item);
    BatchEmpty(item, item.taskDrafts);
  }

  /** The same item but for status, last error and retry count. */
  predicate SameContent(a: SharedItem, b: SharedItem) {
    b == a.(status := b.status, lastError := b.lastError, retryCount := b.retryCount)
  }

  lemma SameClosing(a: SharedItem, b: SharedItem)
    requires SameContent(a, b)
    ensures Closing(a) == Closing(b)
  {
  }

  lemma SameTask(a: SharedItem, b: SharedItem, title: string, overrideBody: Option<string>)
    requires SameContent(a, b)
    ensures TaskFrom(a, title, overrideBody) == TaskFrom(b, title, overrideBody)
  {
    SameClosing(a, b);
  }

  lemma SameNote(a: SharedItem, b: SharedItem)
    requires SameContent(a, b)
    ensures ImportedNoteText(a) == ImportedNoteText(b)
  {
    SameClosing(a, b);
  }

  lemma SameTitle(a: SharedItem, b: SharedItem)
    requires SameContent(a, b)
    ensures ResolvedTaskTitle(a) == ResolvedTaskTitle(b)
  {
  }

  lemma {:induction false} SameBatch(a: SharedItem, b: SharedItem, drafts: seq<Draft>)
    requires SameContent(a, b)
    ensures BatchTasks(a, drafts) == BatchTasks(b, drafts)
  {
    if drafts != [] {
      SameTask(a, b, Trim(drafts[0].title), drafts[0].notes);
      SameBatch(a, b, drafts[1..]);
    }
  }

  /** The outcome does not look at status, last error or retry count, so a retry repeats it. */
  lemma SamePayload(a: SharedItem, b: SharedItem)
    requires SameContent(a, b)
    ensures PayloadOf(a) == PayloadOf(b)
  {
    hide ImportedNoteText, ResolvedTaskTitle, TaskFrom, BatchTasks;
    SameNote(a, b);
    SameTitle(a, b);
    SameTask(a, b, ResolvedTaskTitle(a), None);
    SameBatch(a, b, a.taskDrafts);
  }

  // ------------------------------------------------------------------ one round

  function FailedItems(queue: seq<SharedItem>): seq<SharedItem> {
    if queue == [] then []
    else if Fails(queue[0]) then [MarkedFailed(queue[0], PayloadOf(queue[0]).reason)] + FailedItems(queue[1..])
    else FailedItems(queue[1..])
  }

  function NotesOf(item: SharedItem): seq<string> {
    var p := PayloadOf(item); if p.Import? then p.notes else []
  }

  function TasksOf(item: SharedItem): seq<NewTask> {
    var p := PayloadOf(item); if p.Import? then p.tasks else []
  }

  function AllNotes(queue: seq<SharedItem>): seq<string> {
    if queue == [] then [] else NotesOf(queue[0]) + AllNotes(queue[1..])
  }

  function AllTasks(queue: seq<SharedItem>): seq<NewTask> {
    if queue == [] then [] else TasksOf(queue[0]) + AllTasks(queue[1..])
  }

  /** Task.init gives a task without an order index its creation time in milliseconds. */
  function Created(tasks: seq<NewTask>, now: int): (r: seq<NewTask>)
    ensures |r| == |tasks|
  {
    seq(|tasks|, i requires 0 <= i < |tasks| => tasks[i].(orderIndex := Some(now)))
  }

  /** What applySharedImports appends: an order index that is still missing counts up from the base. */
  function Prepared(tasks: seq<NewTask>, base: int): (r: seq<NewTask>)
    ensures |r| == |tasks|
  {
    seq(|tasks|, i requires 0 <= i < |tasks| =>
      if tasks[i].orderIndex == None then tasks[i].(orderIndex := Some(base + i)) else tasks[i])
  }

  function Unnumbered(tasks: seq<NewTask>): (r: seq<NewTask>)
    ensures |r| == |tasks|
  {
    seq(|tasks|, i requires 0 <= i < |tasks| => tasks[i].(orderIndex := None))
  }
}
