/** LocalStore's task array and the methods that update it in place. now stands for the
    Date() calls of one method. */
module TaskStore {
  import opened Prelude
  import opened Lists
  import opened TaskModel
  import opened TaskHierarchy
  import opened TaskDeletion
  import opened TaskImport
  import opened TaskReorder
  import opened TaskRuns

  class LocalStore {
    var tasks: seq<Task>

    constructor ()
      ensures tasks == [] && Inv(tasks)
    {
      tasks := [];
    }

    /** tasks.firstIndex(where:) by id; |tasks| stands for nil. */
    method FirstIndex(id: Id) returns (index: nat)
      ensures index == IndexOf(tasks, id)
    {
      index := 0;
      while index < |tasks| && tasks[index].id != id
        invariant index <= |tasks|
        invariant forall j :: 0 <= j < index ==> tasks[j].id != id
      {
        index := index + 1;
      }
    }

    method FirstTopLevelIndex(id: Id) returns (index: nat)
      ensures index == TopIndex(tasks, id)
    {
      index := 0;
      while index < |tasks| && !(tasks[index].id == id && tasks[index].parentTaskId.None?)
        invariant index <= |tasks|
        invariant forall j :: 0 <= j < index ==> !(tasks[j].id == id && tasks[j].parentTaskId.None?)
      {
        index := index + 1;
      }
    }

    /** reconcileParentCompletion. */
    method ReconcileParentCompletion(parentId: Id, resetManualOverride: bool, now: Date)
      modifies this
      ensures tasks == Reconcile(old(tasks), parentId, resetManualOverride, now)
    {
      var parentIndex := FirstTopLevelIndex(parentId);
      if parentIndex == |tasks| {
        return;
      }
      if !HasSubtasks(tasks, parentId) {
        if tasks[parentIndex].parentManualReopenAt.Some? {
          tasks := tasks[parentIndex := tasks[parentIndex].(parentManualReopenAt := None, updatedAt := now)];
        }
        return;
      }
      var parent := tasks[parentIndex];
      var didChange := false;
      var allSubtasksCompleted := AllSubtasksCompleted(tasks, parentId);
      if resetManualOverride && parent.parentManualReopenAt.Some? {
        parent := parent.(parentManualReopenAt := None);
        didChange := true;
      }
      if allSubtasksCompleted {
        if parent.parentManualReopenAt.None? && parent.completedAt.None? {
          parent := parent.(completedAt := Some(now), updatedAt := now);
          didChange := true;
        }
      } else {
        if parent.completedAt.Some? {
          parent := parent.(completedAt := None, updatedAt := now);
          didChange := true;
        }
        if parent.parentManualReopenAt.Some? {
          parent := parent.(parentManualReopenAt := None);
          didChange := true;
        }
      }
      if !didChange {
        return;
      }
      tasks := tasks[parentIndex := parent];
    }

    /** addTask. */
    method AddTask(task: Task, nowMs: int, now: Date) returns (id: Id)
      modifies this
      ensures id == task.id
      ensures tasks == TaskHierarchy.AddTask(old(tasks), task, nowMs, now)
      ensures Inv(old(tasks)) && !Has(old(tasks), task.id)
              ==> (Inv(tasks) <==> task.parentManualReopenAt.None? || task.parentTaskId.None?)
    {
      var newTask := task;
      if newTask.orderIndex.None? {
        newTask := newTask.(orderIndex := Some(nowMs));
      }
      if newTask.parentTaskId.Some? {
        var p := FirstTopLevelIndex(newTask.parentTaskId.value);
        if p < |tasks| {
          if newTask.categories == [] {
            newTask := newTask.(categories := tasks[p].categories);
          }
        } else {
          newTask := newTask.(parentTaskId := None);
        }
      } else {
        newTask := newTask.(parentManualReopenAt := None);
      }
      tasks := tasks + [newTask];
      if newTask.parentTaskId.Some? {
        ReconcileParentCompletion(newTask.parentTaskId.value, true, now);
      }
      if Inv(old(tasks)) && !Has(old(tasks), task.id) {
        AddKeepsInv(old(tasks), task, nowMs, now);
      }
      return newTask.id;
    }

    /** The task half of applySharedImports; imported tasks have new ids. */
    method ApplySharedImports(importedTasks: seq<Task>, baseOrderIndex: int)
      modifies this
      ensures tasks == ImportTasks(old(tasks), importedTasks, baseOrderIndex)
      ensures Inv(old(tasks)) && UniqueIds(old(tasks) + importedTasks)
              ==> (Inv(tasks) <==> ImportOk(old(tasks), importedTasks)) && (Parentless(importedTasks) ==> Inv(tasks))
    {
      var preparedTasks := [];
      for offset := 0 to |importedTasks|
        invariant tasks == old(tasks)
        invariant preparedTasks == PreparedBatch(tasks, importedTasks, baseOrderIndex)[..offset]
      {
        var newTask := importedTasks[offset];
        if newTask.orderIndex.None? {
          newTask := newTask.(orderIndex := Some(baseOrderIndex + offset));
        }
        if newTask.parentTaskId.Some? {
          var p := FirstTopLevelIndex(newTask.parentTaskId.value);
          if p < |tasks| {
            if newTask.categories == [] {
              newTask := newTask.(categories := tasks[p].categories);
            }
          } else {
            newTask := newTask.(parentTaskId := None);
          }
        } else {
          newTask := newTask.(parentManualReopenAt := None);
        }
        preparedTasks := preparedTasks + [newTask];
      }
      if Inv(tasks) && UniqueIds(tasks + importedTasks) {
        ImportKeepsInv(tasks, importedTasks, baseOrderIndex);
        if Parentless(importedTasks) { ParentlessImportOk(tasks, importedTasks); }
      }
      tasks := tasks + preparedTasks;
    }

    /** setParent(for:parentId:). */
    method SetParent(taskId: Id, parentId: Option<Id>, now: Date)
      modifies this
      ensures tasks == TaskHierarchy.SetParent(old(tasks), taskId, parentId, now)
      ensures Inv(old(tasks)) ==> Inv(tasks)
    {
      if Inv(tasks) {
        SetParentKeepsInv(tasks, taskId, parentId, now);
      }
      var index := FirstIndex(taskId);
      if index == |tasks| {
        return;
      }
      var oldParentId := tasks[index].parentTaskId;
      if parentId == Some(taskId) {
        return;
      }
      if parentId.Some? && HasSubtasks(tasks, taskId) {
        return;
      }
      if parentId.Some? {
        var p := FirstTopLevelIndex(parentId.value);
        if p == |tasks| {
          return;
        }
      }
      ghost var before := tasks;
      var task := tasks[index].(parentTaskId := parentId, updatedAt := now);
      if parentId.Some? {
        task := task.(parentManualReopenAt := None);
        var p := FirstIndex(parentId.value);
        if task.categories == [] && p < |tasks| {
          task := task.(categories := tasks[p].categories);
        }
      }
      tasks := tasks[index := task];
      assert task == Reparented(before, before[index], parentId, now);
      if oldParentId.Some? {
        ReconcileParentCompletion(oldParentId.value, true, now);
      }
      if parentId.Some? {
        ReconcileParentCompletion(parentId.value, true, now);
      }
    }

    /** deleteTask(id:). */
    method DeleteTask(id: Id, now: Date)
      modifies this
      ensures tasks == TaskHierarchy.DeleteTask(old(tasks), id, now)
      ensures Inv(old(tasks)) ==> (Inv(tasks) <==> !HasSubtasks(old(tasks), id))
    {
      if Inv(tasks) {
        DeleteKeepsInv(tasks, id, now);
      }
      var index := FirstIndex(id);
      var parentId := if index < |tasks| then tasks[index].parentTaskId else None;
      tasks := Drop(tasks, {id});
      if parentId.Some? {
        ReconcileParentCompletion(parentId.value, true, now);
      }
    }

    /** deleteParentTask(id:strategy:): each step of the loop reconciles the parent, yet only
        the parent and its subtasks are touched in the end. */
    method DeleteParentTask(id: Id, strategy: Strategy, now: Date)
      modifies this
      ensures tasks == TaskDeletion.DeleteParentTask(old(tasks), id, strategy, now)
      ensures Inv(old(tasks)) ==> Inv(tasks)
      ensures Inv(old(tasks)) && HasSubtasks(old(tasks), id) ==>
                tasks == if strategy.DeleteSubtasks? then Outside(old(tasks), id) else Freed(old(tasks), id, now)
    {
      if Inv(tasks) {
        DeleteParentKeepsInv(tasks, id, strategy, now);
        if HasSubtasks(tasks, id) {
          ParentDeletionConserves(tasks, id, now);
        }
      }
      if !HasSubtasks(tasks, id) {
        DeleteTask(id, now);
        return;
      }
      var childIds := Ids(Subtasks(tasks, id));
      match strategy {
        case DeleteSubtasks => DeleteEach(childIds, now);
        case DetachSubtasks => DetachEach(childIds, now);
      }
      DeleteTask(id, now);
    }

    method DeleteEach(childIds: seq<Id>, now: Date)
      modifies this
      ensures tasks == DeleteAll(old(tasks), childIds, now)
    {
      for i := 0 to |childIds|
        invariant DeleteAll(old(tasks), childIds, now) == DeleteAll(tasks, childIds[i..], now)
      {
        DeleteTask(childIds[i], now);
        assert childIds[i..][1..] == childIds[i + 1..];
      }
    }

    method DetachEach(childIds: seq<Id>, now: Date)
      modifies this
      ensures tasks == DetachAll(old(tasks), childIds, now)
    {
      for i := 0 to |childIds|
        invariant DetachAll(old(tasks), childIds, now) == DetachAll(tasks, childIds[i..], now)
      {
        SetParent(childIds[i], None, now);
        assert childIds[i..][1..] == childIds[i + 1..];
      }
    }

    /** completeTask. */
    method CompleteTask(id: Id, now: Date)
      modifies this
      ensures tasks == TaskHierarchy.CompleteTask(old(tasks), id, now)
      ensures Inv(old(tasks)) ==> Inv(tasks)
    {
      if Inv(tasks) {
        CompleteKeepsInv(tasks, id, now);
      }
      var index := FirstIndex(id);
      if index == |tasks| {
        return;
      }
      var task := tasks[index];
      task := task.(completedAt := Some(now), reminderDate := None, reminderNotificationId := None,
                    parentManualReopenAt := None);
      tasks := tasks[index := task];
      if task.parentTaskId.Some? {
        ReconcileParentCompletion(task.parentTaskId.value, false, now);
      }
    }

    /** restoreTask. */
    method RestoreTask(id: Id, now: Date)
      modifies this
      ensures tasks == TaskHierarchy.RestoreTask(old(tasks), id, now)
      ensures Inv(old(tasks)) ==> Inv(tasks)
    {
      if Inv(tasks) {
        RestoreKeepsInv(tasks, id, now);
      }
      var index := FirstIndex(id);
      if index == |tasks| {
        return;
      }
      var task := tasks[index];
      var reminderDate, notificationId := task.reminderDate, task.reminderNotificationId;
      task := task.(completedAt := None);
      if HasSubtasks(tasks, id) {
        task := task.(parentManualReopenAt := Some(now));
      }
      if reminderDate.Some? && notificationId.Some? && reminderDate.value <= now {
        task := task.(reminderDate := None, reminderNotificationId := None);
      }
      tasks := tasks[index := task];
      if task.parentTaskId.Some? {
        ReconcileParentCompletion(task.parentTaskId.value, true, now);
      }
    }

    /** The task loop of migrateIfNeeded: computes in place what sanitizeHierarchy computes
        afresh, and says whether anything changed. */
    method MigrateTasks() returns (tasksChanged: bool)
      requires UniqueIds(tasks)
      modifies this
      ensures tasks == Sanitize(old(tasks))
      ensures tasksChanged <==> tasks != old(tasks)
    {
      var taskLookup := tasks;
      tasksChanged := false;
      var idx := 0;
      while idx < |tasks|
        invariant 0 <= idx <= |tasks| == |taskLookup|
        invariant forall j :: 0 <= j < idx ==> tasks[j] == SanitizedTask(taskLookup, taskLookup[j])
        invariant forall j :: idx <= j < |tasks| ==> tasks[j] == taskLookup[j]
        invariant tasksChanged <==> exists j :: 0 <= j < idx && tasks[j] != taskLookup[j]
      {
        ghost var t := tasks[idx];
        if tasks[idx].parentTaskId.Some? {
          var parentId := tasks[idx].parentTaskId.value;
          var p := IndexOf(taskLookup, parentId);
          var parentIsTopLevel := p == |taskLookup| || taskLookup[p].parentTaskId.None?;
          if p == |taskLookup| || !parentIsTopLevel || parentId == tasks[idx].id {
            tasks := tasks[idx := tasks[idx].(parentTaskId := None)];
            tasksChanged := true;
          }
        }
        if tasks[idx].parentTaskId.Some? && tasks[idx].parentManualReopenAt.Some? {
          tasks := tasks[idx := tasks[idx].(parentManualReopenAt := None)];
          tasksChanged := true;
        }
        assert tasks[idx] == SanitizedTask(taskLookup, t);
        idx := idx + 1;
      }
    }

    /** updateTasksForCategoryRemoval: the edited tasks are returned in array order. */
    method UpdateTasksForCategoryRemoval(category: string, replacement: Option<string>, now: Date)
      returns (updatedTasks: seq<Task>)
      modifies this
      ensures tasks == RemoveCategory(old(tasks), category, replacement, now)
      ensures forall t :: t in updatedTasks <==>
                exists i :: 0 <= i < |tasks| && category in old(tasks)[i].categories && t == tasks[i]
      ensures Inv(old(tasks)) ==> Inv(tasks)
    {
      ghost var before := tasks;
      updatedTasks := [];
      var idx := 0;
      while idx < |tasks|
        invariant 0 <= idx <= |tasks| == |before|
        invariant forall j :: 0 <= j < idx ==> tasks[j] == RecategorizedTask(before[j], category, replacement, now)
        invariant forall j :: idx <= j < |tasks| ==> tasks[j] == before[j]
        invariant forall t :: t in updatedTasks <==>
                    exists i :: 0 <= i < idx && category in before[i].categories && t == tasks[i]
      {
        var task := tasks[idx];
        if category in task.categories {
          task := task.(categories := WithoutCategory(task.categories, category));
          if replacement.Some? && replacement.value !in task.categories {
            task := task.(categories := task.categories + [replacement.value]);
          }
          task := task.(updatedAt := now);
          tasks := tasks[idx := task];
          updatedTasks := updatedTasks + [task];
        }
        idx := idx + 1;
      }
      if Inv(before) {
        FieldEditsKeepInv(before, tasks);
      }
    }

    /** reorderTasks(orderedIds:). */
    method ReorderTasks(orderedIds: seq<Id>, nowBase: int, now: Date)
      modifies this
      ensures tasks == TaskReorder.ReorderTasks(old(tasks), orderedIds, nowBase, now)
      ensures Inv(old(tasks)) && Distinct(orderedIds) ==> Inv(tasks)
    {
      if Inv(tasks) && Distinct(orderedIds) {
        ReorderKeepsInv(tasks, orderedIds, nowBase, now);
      }
      var reordered := Pick(tasks, orderedIds);
      var remaining := Drop(tasks, IdSet(orderedIds));
      tasks := Numbered(reordered, nowBase, now) + remaining;
    }

    // ------------------------------------------------------- drop handlers

    /** The edits that every drop handler makes to its local list of ids. */
    method PlaceDragged(order: seq<Id>, dragged: Id, target: Target) returns (ordered: seq<Id>)
      ensures ordered == Moved(order, dragged, target)
    {
      ordered := Remove(order, dragged);
      match target {
        case End =>
          ordered := InsertAt(ordered, |ordered|, dragged);
        case Top =>
          ordered := InsertAt(ordered, 0, dragged);
        case Before(beforeTaskId) =>
          var idx := Find(ordered, beforeTaskId);
          ordered := InsertAt(ordered, if idx < |ordered| then idx else 0, dragged);
      }
    }

    /** reorderWithinSameGroup and the reordering part of applyPriorityDrop: whatever part of the
        store shows the group afterwards, sorting it gives the old order with one task moved. */
    method DropOnList(group: seq<Task>, draggedId: Id, target: Target, nowBase: int, now: Date)
      requires UniqueIds(tasks) && UniqueIds(group) && forall t :: t in group ==> t in tasks
      requires draggedId in Ids(group)
      modifies this
      ensures tasks == ListDrop(old(tasks), group, draggedId, target, nowBase, now)
      ensures forall g: seq<Task> :: UniqueIds(g) && (forall t :: t in g <==> t in tasks && t.id in Ids(group)) ==>
                Ids(SortDesc(g)) == Moved(Ids(SortDesc(group)), draggedId, target)
    {
      var ordered := PlaceDragged(Ids(SortDesc(group)), draggedId, target);
      ghost var before := tasks;
      ReorderTasks(ordered, nowBase, now);
      forall g: seq<Task> | UniqueIds(g) && (forall t :: t in g <==> t in tasks && t.id in Ids(group))
        ensures Ids(SortDesc(g)) == Moved(Ids(SortDesc(group)), draggedId, target)
      {
        ListDropShows(before, group, draggedId, target, nowBase, now, g);
      }
    }

    /** applySubtaskDrop. */
    method DropOnSubtasks(draggedId: Id, parentTaskId: Id, target: Target, showingDone: bool, nowBase: int, now: Date)
      modifies this
      ensures tasks == SubtaskDrop(old(tasks), draggedId, parentTaskId, target, showingDone, nowBase, now)
      ensures Inv(old(tasks)) ==> Inv(tasks)
      ensures Inv(old(tasks)) && SetParentAllowed(old(tasks), draggedId, Some(parentTaskId))
              && old(tasks)[IndexOf(old(tasks), draggedId)].completedAt.Some? == showingDone
              ==> Ids(SubtaskList(tasks, parentTaskId, showingDone))
                  == Moved(Ids(SubtaskList(old(tasks), parentTaskId, showingDone)), draggedId, target)
    {
      ghost var before := tasks;
      if Inv(before) {
        SubtaskDropKeepsInv(before, draggedId, parentTaskId, target, showingDone, nowBase, now);
        if SetParentAllowed(before, draggedId, Some(parentTaskId))
           && before[IndexOf(before, draggedId)].completedAt.Some? == showingDone
        {
          SubtaskDropShows(before, draggedId, parentTaskId, target, showingDone, nowBase, now);
        }
      }
      if draggedId == parentTaskId {
        return;
      }
      SetParent(draggedId, Some(parentTaskId), now);
      var ordered := PlaceDragged(Ids(SubtaskList(tasks, parentTaskId, showingDone)), draggedId, target);
      ReorderTasks(ordered, nowBase, now);
    }
  }
}
