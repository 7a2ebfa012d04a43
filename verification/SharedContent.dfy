/** What the notes and tasks made of a shared item say, field by field and character by character. */
module SharedContent {
  import opened Prelude
  import opened Texts
  import opened SharedImport

  /** A part of a text with the gap behind it, if there is anything in it. */
  function Part(field: Option<string>): string {
    if field.Some? && !AllBlank(field.value) then Trim(field.value) + "\n\n" else ""
  }

  /** What every imported text ends with. */
  function Ending(item: SharedItem): string {
    "Imported from "
    + (if item.sourceApp.Some? && !AllBlank(item.sourceApp.value) then Trim(item.sourceApp.value) else "Share Sheet")
    + " on " + item.importedOn + (if item.wasTruncated then "\n\n" + "Import truncated to 10,000 characters." else "")
  }

  lemma {:induction false} JoinedParts(parts: seq<string>, rest: seq<string>)
    requires rest != []
    ensures Joined(parts + rest, "\n\n") == Gaps(parts) + Joined(rest, "\n\n")
  {
    if parts == [] {
      assert parts + rest == rest;
    } else {
      assert (parts + rest)[1..] == parts[1..] + rest;
      JoinedParts(parts[1..], rest);
    }
  }

  function Gaps(parts: seq<string>): string {
    if parts == [] then "" else parts[0] + "\n\n" + Gaps(parts[1..])
  }

  lemma {:induction false} GapsAppend(a: seq<string>, b: seq<string>)
    ensures Gaps(a + b) == Gaps(a) + Gaps(b)
  {
    if a == [] {
      assert a + b == b;
    } else {
      assert (a + b)[1..] == a[1..] + b;
      GapsAppend(a[1..], b);
    }
  }

  lemma SectionGaps(field: Option<string>)
    ensures Gaps(Section(field)) == Part(field)
  {
    if Section(field) != [] { assert Section(field)[1..] == []; }
  }

  lemma AttributionIs(item: SharedItem)
    ensures Ending(item) == AttributionLine(item)
                            + (if item.wasTruncated then "\n\n" + "Import truncated to 10,000 characters." else "")
  {
    hide Trim;
  }

  lemma ClosingIs(item: SharedItem)
    ensures Joined(Closing(item), "\n\n") == Ending(item)
  {
    hide AttributionLine, Ending;
    var line, cut := AttributionLine(item), "Import truncated to 10,000 characters.";
    AttributionIs(item);
    JoinedTwo(line, cut);
    assert Closing(item) == if item.wasTruncated then [line, cut] else [line];
    assert line + "" == line && line + ("\n\n" + cut) == line + "\n\n" + cut;
  }

  lemma JoinedTwo(a: string, b: string)
    ensures Joined([a, b], "\n\n") == a + "\n\n" + b
  {
    assert [a, b][1..] == [b];
    assert Joined([b], "\n\n") == b;
  }

  /** The text of a note: its title as a heading, its text and its link, each only if there is one, and where and when
      it came from. */
  lemma NoteIs(item: SharedItem)
    ensures ImportedNoteText(item) ==
              Trim((if AllBlank(item.title) then "" else "# " + Trim(item.title) + "\n\n")
                   + Part(item.text) + Part(item.url) + Ending(item))
  {
    var heading := if Trim(item.title) != "" then ["# " + Trim(item.title)] else [];
    JoinedParts(heading + Section(item.text) + Section(item.url), Closing(item));
    GapsAppend(heading + Section(item.text), Section(item.url));
    GapsAppend(heading, Section(item.text));
    SectionGaps(item.text);
    SectionGaps(item.url);
    ClosingIs(item);
    if heading != [] { assert heading[1..] == []; }
    hide Trim, Joined, Section, Closing;
  }

  /** The notes of a task: the link, then the draft's own notes or else the text, then where and when it came from. */
  lemma TaskNotesAre(item: SharedItem, overrideBody: Option<string>)
    ensures ImportedTaskNotes(item, overrideBody) ==
              Trim(Part(item.url) + Part(if overrideBody.Some? then overrideBody else item.text) + Ending(item))
  {
    var body := if overrideBody.Some? then overrideBody else item.text;
    JoinedParts(Section(item.url) + Section(body), Closing(item));
    GapsAppend(Section(item.url), Section(body));
    SectionGaps(item.url);
    SectionGaps(body);
    ClosingIs(item);
    hide Trim, Joined, Section, Closing;
  }

  /** A task keeps the categories, priority, due date and reminder of the item. It always has notes. */
  lemma TaskFromIs(item: SharedItem, title: string, overrideBody: Option<string>)
    ensures TaskFrom(item, title, overrideBody) ==
              NewTask(title, item.categories, item.priority, item.dueDate, Some(ImportedTaskNotes(item, overrideBody)),
                      item.reminderDate, None)
  {
    var body := if overrideBody.Some? then overrideBody else item.text;
    AttributionShows(item, Section(item.url) + Section(body));
  }

  /** The title of a task is the item's, without blanks around it, or else the first six words of its text. */
  lemma TaskTitleIs(item: SharedItem)
    ensures !AllBlank(item.title) ==> ResolvedTaskTitle(item) == Trim(item.title)
    ensures AllBlank(item.title) && item.text.Some? ==>
              var words := Words(item.text.value);
              ResolvedTaskTitle(item) == Joined(if |words| <= 6 then words else words[..6], " ")
    ensures AllBlank(item.title) && item.text.None? ==> ResolvedTaskTitle(item) == ""
  {
    if item.text.Some? { TrimmedWords(item.text.value); }
  }

  /** More than one draft makes a batch, whatever was chosen. A note is always imported. A task needs a title, and a
      batch a draft with one; the reasons say so. */
  lemma PayloadIs(item: SharedItem)
    ensures |item.taskDrafts| <= 1 && item.destination.ToNote? ==>
              PayloadOf(item) == Import([ImportedNoteText(item)], [])
    ensures |item.taskDrafts| <= 1 && item.destination.ToTask? ==>
              PayloadOf(item) == if ResolvedTaskTitle(item) == "" then Rejected("Unable to determine a task title.")
                                 else Import([], [TaskFrom(item, ResolvedTaskTitle(item), None)])
    ensures |item.taskDrafts| > 1 || item.destination.ToTaskBatch? ==>
              PayloadOf(item) == if forall d :: d in item.taskDrafts ==> AllBlank(d.title)
                                 then Rejected("No valid task items were found in the shared list.")
                                 else Import([], BatchTasks(item, item.taskDrafts))
  {
    var heading := if Trim(item.title) != "" then ["# " + Trim(item.title)] else [];
    AttributionShows(item, heading + Section(item.text) + Section(item.url));
    BatchEmpty(item, item.taskDrafts);
  }

  /** One task for every draft that has a title, in order, with that title and the draft's notes. */
  lemma {:induction false} BatchIs(item: SharedItem, a: seq<Draft>, d: Draft)
    ensures BatchTasks(item, []) == []
    ensures BatchTasks(item, a + [d]) ==
              BatchTasks(item, a) + (if AllBlank(d.title) then [] else [TaskFrom(item, Trim(d.title), d.notes)])
  {
    hide TaskFrom;
    if a == [] {
      assert a + [d] == [d] && [d][1..] == [];
    } else {
      assert (a + [d])[1..] == a[1..] + [d];
      BatchIs(item, a[1..], d);
    }
  }

  /** A failure leaves its reason and one retry more; nothing else changes. */
  lemma MarkedIs(item: SharedItem, reason: string)
    ensures var m := MarkedFailed(item, reason);
            && m == item.(status := m.status, lastError := m.lastError, retryCount := m.retryCount)
            && m.status == Failed && m.lastError == Some(reason) && m.retryCount == item.retryCount + 1
    ensures var m := MarkedPending(item);
            m == item.(status := m.status, lastError := m.lastError) && m.status == Pending && m.lastError == None
  {
  }
}
