/** Concrete task lists on which an operation leaves the rules: a subtask added with a reopen mark, a first subtask
    imported complete, an only subtask completed by an edit, a parent deleted as if it were a plain task, and such a
    deletion undone; and lists that an undone deletion does not bring back. */
module TaskExamples {
  import opened Prelude
  import opened TaskModel
  import opened TaskHierarchy
  import opened TaskEdits
  import opened TaskImport
  import opened TaskRuns
  import opened TaskUndo

  const PARENT := Id("parent")
  const CHILD := Id("child")

  function Example(id: Id, completedAt: Option<Date>, parentId: Option<Id>, mark: Option<Date>): Task {
    Task(id, "", [], Medium, None, completedAt, None, 0, 0, Some(0), None, None, parentId, mark)
  }

  /** An open task without subtasks. */
  function Lone(): seq<Task> {
    [Example(PARENT, None, None, None)]
  }

  /** A new subtask that carries a reopen mark breaks the rule that marks are on parents. */
  lemma AddedMarkExample()
    ensures var task := Example(CHILD, None, Some(PARENT), Some(0)); Inv(Lone()) && !Inv(AddTask(Lone(), task, 0, 0))
  {
    assert PARENT.text[0] != CHILD.text[0];
    AddKeepsInv(Lone(), Example(CHILD, None, Some(PARENT), Some(0)), 0, 0);
  }

  /** A task whose first imported subtask is complete stays open. */
  lemma ImportedFirstSubtaskExample()
    ensures var batch := [Example(CHILD, Some(0), Some(PARENT), None)];
            Inv(Lone()) && UniqueIds(Lone() + batch) && !Inv(ImportTasks(Lone(), batch, 0))
  {
    var batch := [Example(CHILD, Some(0), Some(PARENT), None)];
    assert PARENT.text[0] != CHILD.text[0];
    assert Waiting(Lone(), Lone()[0]);
    assert batch[0].parentTaskId == Some(PARENT) && OnlyComplete(batch, PARENT);
    ImportKeepsInv(Lone(), batch, 0);
  }

  /** An edit that completes the only subtask leaves its parent open. */
  lemma EditedSubtaskExample()
    ensures var ts := [Example(PARENT, None, None, None), Example(CHILD, None, Some(PARENT), None)];
            Inv(ts) && !Inv(EditTask(ts, CHILD, Example(CHILD, Some(0), Some(PARENT), None), 0))
  {
    var ts := [Example(PARENT, None, None, None), Example(CHILD, None, Some(PARENT), None)];
    assert PARENT.text[0] != CHILD.text[0];
    assert ts[0].id == PARENT && ts[1].parentTaskId == Some(PARENT) && ts[1].id == CHILD;
    assert IndexOf(ts, CHILD) == 1;
    var t := Example(CHILD, Some(0), Some(PARENT), None);
    EditKeepsInvIff(ts, 1, t);
    assert !ParentFits(ts, 1, t, ts[0]);
    assert ts[0].id in Named(t.parentTaskId);
  }

  /** A parent that was reopened by hand, above its only subtask, which is complete. */
  function Reopened(): seq<Task> {
    [Example(PARENT, None, None, Some(0)), Example(CHILD, Some(0), Some(PARENT), None)]
  }

  lemma ReopenedInv()
    ensures Inv(Reopened())
  {
    var ts := Reopened();
    assert PARENT.text[0] != CHILD.text[0];
    assert ts[0].id == PARENT && ts[1].parentTaskId == Some(PARENT);
  }

  /** deleteTask on a parent leaves a subtask below nothing. */
  lemma DeletedParentExample()
    ensures Inv(Reopened()) && !Inv(DeleteTask(Reopened(), PARENT, 0))
  {
    ReopenedInv();
    assert Reopened()[1].parentTaskId == Some(PARENT);
    DeleteKeepsInv(Reopened(), PARENT, 0);
  }

  /** Undoing that deletion brings the parent back without its mark, open above a complete subtask, and cleaning the
      list leaves it so. */
  lemma UndoneDeletionExample()
    ensures Inv(Reopened()) && !Inv(Undone(Reopened(), 0, 0, 0, 0)) && !Inv(Sanitize(Undone(Reopened(), 0, 0, 0, 0)))
  {
    ReopenedInv();
    assert AllSubtasksCompleted(Reopened(), PARENT);
    UndoneInvIff(Reopened(), 0, 0, 0, 0);
    CleanedUndoIff(Reopened(), 0, 0, 0, 0);
  }

  /** Deleting the complete subtask of a reopened parent and undoing that leaves the parent complete. */
  lemma UndoneSubtaskExample()
    ensures Inv(Reopened()) && !SameTasks(Undone(Reopened(), 1, 0, 0, 0), Reopened())
  {
    ReopenedInv();
    assert Reopened()[0].id == PARENT;
    UndoneSameIff(Reopened(), 1, 0, 0, 0);
  }

  /** Deleting the open subtask of a complete parent and undoing that leaves the parent open. */
  lemma UndoneOpenSubtaskExample()
    ensures var ts := [Example(PARENT, Some(0), None, None), Example(CHILD, None, Some(PARENT), None)];
            Inv(ts) && !SameTasks(Undone(ts, 1, 0, 0, 0), ts)
  {
    var ts := [Example(PARENT, Some(0), None, None), Example(CHILD, None, Some(PARENT), None)];
    assert PARENT.text[0] != CHILD.text[0];
    assert ts[0].id == PARENT && ts[1].parentTaskId == Some(PARENT);
    UndoneSameIff(ts, 1, 0, 0, 0);
  }
}
