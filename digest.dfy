/** The digest: the status filter, one section per workspace and the email body that
    concatenates them. The two rendering loops of the mailer class are methods whose
    accumulator is tied, by their loop invariants, to the recursive specification
    functions below. The remote task listing is the parameter `tasksOf` (workspace id to
    the tasks the service returns for it), the configured workspace list is a sequence
    parameter, and the date formatting is the parameter `formatDate`.

    The specification functions take the paragraph renderer as a parameter `render`:
    how sections and the digest are put together does not depend on what a paragraph
    looks like, and the methods instantiate it with `Paragraph(formatDate)`, that is,
    with renderTask. */
module Digest {
  import opened Records
  import opened TaskRender

  const Intro: string := "The following tasks are in your Asana list today.<br><br>"
  const SectionEnd: string := "<br><br>"

  /** renderTask, with the date formatting fixed. */
  function Paragraph(formatDate: string -> string): Task -> string
  {
    t => RenderTask(t, formatDate)
  }

  /** The tasks a workspace section lists: those whose status qualifies, in input order. */
  function Pending(tasks: seq<Task>): (r: seq<Task>)
    ensures |r| <= |tasks|
    ensures forall i :: 0 <= i < |r| ==> Qualifies(r[i])
  {
    if tasks == [] then []
    else (if Qualifies(tasks[0]) then [tasks[0]] else []) + Pending(tasks[1..])
  }

  /** Filtering distributes over concatenation: together with the one-element case this
      determines the filter, so qualifying tasks keep their relative order. */
  lemma {:induction false} PendingAppend(a: seq<Task>, b: seq<Task>)
    ensures Pending(a + b) == Pending(a) + Pending(b)
  {
    if a == [] {
      assert a + b == b;
    } else {
      assert (a + b)[1..] == a[1..] + b;
      PendingAppend(a[1..], b);
    }
  }

  lemma PendingSingle(t: Task)
    ensures Pending([t]) == if Qualifies(t) then [t] else []
  {
    assert [t][1..] == [];
  }

  /** A task is listed if and only if it is among the input tasks and its status qualifies. */
  lemma {:induction false} PendingMembers(tasks: seq<Task>, t: Task)
    ensures t in Pending(tasks) <==> t in tasks && Qualifies(t)
  {
    if tasks != [] {
      PendingMembers(tasks[1..], t);
      assert tasks == [tasks[0]] + tasks[1..];
    }
  }

  /** Each qualifying task is listed exactly as many times as it occurs in the input, and
      every other task not at all. */
  lemma {:induction false} PendingCount(tasks: seq<Task>, t: Task)
    ensures multiset(Pending(tasks))[t] == if Qualifies(t) then multiset(tasks)[t] else 0
  {
    if tasks != [] {
      PendingCount(tasks[1..], t);
      assert tasks == [tasks[0]] + tasks[1..];
      assert multiset(tasks) == multiset([tasks[0]]) + multiset(tasks[1..]);
      var head := if Qualifies(tasks[0]) then [tasks[0]] else [];
      assert multiset(Pending(tasks)) == multiset(head) + multiset(Pending(tasks[1..]));
    }
  }

  /** Nothing is listed exactly when no task qualifies. */
  lemma {:induction false} PendingEmptyIff(tasks: seq<Task>)
    ensures Pending(tasks) == [] <==> forall i :: 0 <= i < |tasks| ==> !Qualifies(tasks[i])
  {
    if tasks != [] {
      PendingEmptyIff(tasks[1..]);
      assert forall i :: 1 <= i < |tasks| ==> tasks[i] == tasks[1..][i - 1];
    }
  }

  /** The paragraphs of the given tasks, concatenated in order. */
  function Paragraphs(tasks: seq<Task>, render: Task -> string): string
  {
    if tasks == [] then ""
    else render(tasks[0]) + Paragraphs(tasks[1..], render)
  }

  /** Every task yields a non-empty paragraph, so the paragraphs are empty exactly when
      there are no tasks. */
  lemma ParagraphsEmptyIff(tasks: seq<Task>, formatDate: string -> string)
    ensures Paragraphs(tasks, Paragraph(formatDate)) == "" <==> tasks == []
  {
    if tasks != [] {
      RenderTaskShape(tasks[0], formatDate);
      assert Paragraph(formatDate)(tasks[0]) == RenderTask(tasks[0], formatDate);
    }
  }

  lemma {:induction false} ParagraphsAppend(a: seq<Task>, b: seq<Task>, render: Task -> string)
    ensures Paragraphs(a + b, render) == Paragraphs(a, render) + Paragraphs(b, render)
  {
    if a == [] {
      assert a + b == b;
    } else {
      assert (a + b)[1..] == a[1..] + b;
      ParagraphsAppend(a[1..], b, render);
      ConcatAssoc(render(a[0]), Paragraphs(a[1..], render), Paragraphs(b, render));
    }
  }

  lemma ParagraphsSingle(t: Task, render: Task -> string)
    ensures Paragraphs([t], render) == render(t)
  {
    assert [t][1..] == [];
    assert render(t) + "" == render(t);
  }

  /** renderWorkspaceTasks, as a value: the paragraphs of the pending tasks, then the
      section terminator. */
  function Section(tasks: seq<Task>, render: Task -> string): string
  {
    Paragraphs(Pending(tasks), render) + SectionEnd
  }

  /** Every section ends with the terminator. */
  lemma SectionTerminated(tasks: seq<Task>, render: Task -> string)
    ensures EndsWith(Section(tasks, render), SectionEnd)
  {
    EndsWithConcat(Paragraphs(Pending(tasks), render), SectionEnd);
  }

  /** A section is the bare terminator exactly when none of its tasks qualifies. */
  lemma SectionEmptyIff(tasks: seq<Task>, formatDate: string -> string)
    ensures Section(tasks, Paragraph(formatDate)) == SectionEnd <==>
      forall i :: 0 <= i < |tasks| ==> !Qualifies(tasks[i])
  {
    PendingEmptyIff(tasks);
    ParagraphsEmptyIff(Pending(tasks), formatDate);
    var p := Paragraphs(Pending(tasks), Paragraph(formatDate));
    if p + SectionEnd == SectionEnd {
      assert |p| == 0;
    }
  }

  /** A task that does not qualify can be dropped from, or added to, a task list without
      changing its section. */
  lemma SectionSkipsNonQualifying(a: seq<Task>, t: Task, b: seq<Task>, render: Task -> string)
    requires !Qualifies(t)
    ensures Section(a + [t] + b, render) == Section(a + b, render)
  {
    PendingAppend(a + [t], b);
    PendingAppend(a, [t]);
    PendingSingle(t);
    assert Pending(a) + [] == Pending(a);
    PendingAppend(a, b);
  }

  /** A qualifying task contributes its own paragraph at its own place. */
  lemma SectionRendersQualifying(a: seq<Task>, t: Task, b: seq<Task>, render: Task -> string)
    requires Qualifies(t)
    ensures Section(a + [t] + b, render) == Paragraphs(Pending(a), render) + render(t) + Section(b, render)
  {
    PendingAppend(a + [t], b);
    PendingAppend(a, [t]);
    PendingSingle(t);
    var pa, pb := Paragraphs(Pending(a), render), Paragraphs(Pending(b), render);
    ParagraphsAppend(Pending(a) + [t], Pending(b), render);
    ParagraphsAppend(Pending(a), [t], render);
    ParagraphsSingle(t, render);
    assert Paragraphs(Pending(a + [t] + b), render) == pa + render(t) + pb;
    ConcatAssoc(pa + render(t), pb, SectionEnd);
  }

  /** One loop step: extending the task list by one task appends its paragraph when it
      qualifies, and nothing otherwise. */
  lemma PendingParagraphsStep(tasks: seq<Task>, i: nat, content: string, render: Task -> string)
    requires i < |tasks|
    requires content == Paragraphs(Pending(tasks[..i]), render)
    ensures Qualifies(tasks[i]) ==> content + render(tasks[i]) == Paragraphs(Pending(tasks[..i + 1]), render)
    ensures !Qualifies(tasks[i]) ==> content == Paragraphs(Pending(tasks[..i + 1]), render)
  {
    var t := tasks[i];
    assert tasks[..i + 1] == tasks[..i] + [t];
    PendingAppend(tasks[..i], [t]);
    PendingSingle(t);
    if Qualifies(t) {
      ParagraphsAppend(Pending(tasks[..i]), [t], render);
      ParagraphsSingle(t, render);
    } else {
      assert Pending(tasks[..i]) + [] == Pending(tasks[..i]);
    }
  }

  /** renderWorkspaceTasks: walks the workspace's tasks in order and appends the paragraph
      of each qualifying one, then the terminator. */
  method RenderWorkspaceTasks(workspace: string, tasksOf: string -> seq<Task>, formatDate: string -> string)
    returns (content: string)
    ensures content == Section(tasksOf(workspace), Paragraph(formatDate))
  {
    content := "";
    var tasks := tasksOf(workspace);
    var render := Paragraph(formatDate);
    for i := 0 to |tasks|
      invariant content == Paragraphs(Pending(tasks[..i]), render)
    {
      var task := tasks[i];
      PendingParagraphsStep(tasks, i, content, render);
      if Qualifies(task) {
        content := content + render(task);
      }
    }
    assert tasks[..|tasks|] == tasks;
    return content + SectionEnd;
  }

  /** The sections of the given workspaces, in configured order. */
  function Sections(workspaces: seq<string>, tasksOf: string -> seq<Task>, render: Task -> string): string
  {
    if workspaces == [] then ""
    else Section(tasksOf(workspaces[0]), render) + Sections(workspaces[1..], tasksOf, render)
  }

  lemma {:induction false} SectionsAppend(a: seq<string>, b: seq<string>, tasksOf: string -> seq<Task>, render: Task -> string)
    ensures Sections(a + b, tasksOf, render) == Sections(a, tasksOf, render) + Sections(b, tasksOf, render)
  {
    if a == [] {
      assert a + b == b;
    } else {
      assert (a + b)[1..] == a[1..] + b;
      SectionsAppend(a[1..], b, tasksOf, render);
      ConcatAssoc(Section(tasksOf(a[0]), render), Sections(a[1..], tasksOf, render), Sections(b, tasksOf, render));
    }
  }

  lemma SectionsSingle(w: string, tasksOf: string -> seq<Task>, render: Task -> string)
    ensures Sections([w], tasksOf, render) == Section(tasksOf(w), render)
  {
    assert [w][1..] == [];
    assert Section(tasksOf(w), render) + "" == Section(tasksOf(w), render);
  }

  /** renderEmail, as a value: the fixed introduction, then every workspace's section. */
  function Email(workspaces: seq<string>, tasksOf: string -> seq<Task>, render: Task -> string): string
  {
    Intro + Sections(workspaces, tasksOf, render)
  }

  /** With no workspaces configured the digest is just the introduction. */
  lemma EmailNoWorkspaces(tasksOf: string -> seq<Task>, render: Task -> string)
    ensures Email([], tasksOf, render) == Intro
  {
  }

  /** Adding a workspace at the end of the configuration appends exactly its section. */
  lemma EmailAppendWorkspace(workspaces: seq<string>, w: string, tasksOf: string -> seq<Task>, render: Task -> string)
    ensures Email(workspaces + [w], tasksOf, render) ==
      Email(workspaces, tasksOf, render) + Section(tasksOf(w), render)
  {
    SectionsAppend(workspaces, [w], tasksOf, render);
    SectionsSingle(w, tasksOf, render);
    ConcatAssoc(Intro, Sections(workspaces, tasksOf, render), Section(tasksOf(w), render));
  }

  /** The digest of two configurations in sequence is the first digest followed by the
      second one's sections. */
  lemma EmailConcat(a: seq<string>, b: seq<string>, tasksOf: string -> seq<Task>, render: Task -> string)
    ensures Email(a + b, tasksOf, render) == Email(a, tasksOf, render) + Sections(b, tasksOf, render)
  {
    SectionsAppend(a, b, tasksOf, render);
    ConcatAssoc(Intro, Sections(a, tasksOf, render), Sections(b, tasksOf, render));
  }

  /** The digest starts with the introduction; with at least one workspace it ends with
      a section terminator, and with none it is only the introduction. */
  lemma EmailShape(workspaces: seq<string>, tasksOf: string -> seq<Task>, render: Task -> string)
    ensures StartsWith(Email(workspaces, tasksOf, render), Intro)
    ensures workspaces != [] ==> EndsWith(Email(workspaces, tasksOf, render), SectionEnd)
    ensures workspaces == [] ==> Email(workspaces, tasksOf, render) == Intro
  {
    StartsWithConcat(Intro, Sections(workspaces, tasksOf, render));
    if workspaces != [] {
      var n := |workspaces|;
      var init, w := workspaces[..n - 1], workspaces[n - 1];
      assert workspaces == init + [w];
      EmailAppendWorkspace(init, w, tasksOf, render);
      SectionTerminated(tasksOf(w), render);
      EndsWithAppend(Email(init, tasksOf, render), Section(tasksOf(w), render), SectionEnd);
    }
  }

  /** renderEmail: the introduction, then each configured workspace's section in order. */
  method RenderEmail(workspaces: seq<string>, tasksOf: string -> seq<Task>, formatDate: string -> string)
    returns (content: string)
    ensures content == Email(workspaces, tasksOf, Paragraph(formatDate))
  {
    content := "";
    content := content + Intro;
    for i := 0 to |workspaces|
      invariant content == Email(workspaces[..i], tasksOf, Paragraph(formatDate))
    {
      var section := RenderWorkspaceTasks(workspaces[i], tasksOf, formatDate);
      assert workspaces[..i + 1] == workspaces[..i] + [workspaces[i]];
      EmailAppendWorkspace(workspaces[..i], workspaces[i], tasksOf, Paragraph(formatDate));
      content := content + section;
    }
    assert workspaces[..|workspaces|] == workspaces;
  }
}
