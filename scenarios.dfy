/** Concrete inputs worked through the model: the deep links, breadcrumbs and the
    one-workspace digest of a typical run, and two edge cases of PHP's
    `empty()` that the renderer inherits. */
module Scenarios {
  import opened Records
  import opened TaskRender
  import opened Digest

  function Website(): Project
  {
    Project("7", "Website", None)
  }

  /** A task with id "42" in workspace "1", no parent and no projects links to the
      workspace. */
  lemma UrlWithoutProjects()
    ensures TaskUrl(Task("42", "Ship it", None, "inbox", "1", None, [])) == "https://app.asana.com/0/1/42"
  {
  }

  /** A subtask links under its parent's first project but keeps its own id. */
  lemma UrlUnderParentProject()
    ensures
      var parent := Task("10", "Launch", None, "later", "1", None, [Project("99", "Web", None)]);
      TaskUrl(Task("42", "Ship it", None, "inbox", "1", Some(parent), [Website()])) == "https://app.asana.com/0/99/42"
  {
  }

  /** A subtask whose parent has no projects links to the workspace even though the
      subtask has a project of its own. */
  lemma UrlParentWithoutProjects()
    ensures
      var parent := Task("10", "Launch", None, "later", "1", None, []);
      TaskUrl(Task("42", "Ship it", None, "inbox", "1", Some(parent), [Website()])) == "https://app.asana.com/0/1/42"
  {
  }

  /** Team, project and parent name, in that order. */
  lemma BreadcrumbTeamProjectParent()
    ensures
      var parent := Task("10", "Launch", None, "later", "1", None, [Project("99", "Web", Some(Team("Marketing")))]);
      var task := Task("42", "Ship it", None, "inbox", "1", Some(parent), [Website()]);
      RenderProject(task) == CrumbOpen + "Marketing" + Separator + "Web" + Separator + "Launch" + CrumbClose
  {
    var parent := Task("10", "Launch", None, "later", "1", None, [Project("99", "Web", Some(Team("Marketing")))]);
    var task := Task("42", "Ship it", None, "inbox", "1", Some(parent), [Website()]);
    ParentLineage(task);
    OwnProjectLineage(parent.(parent := None));
    LineageEmptyIff(task);
  }

  /** A lone project named "0" is empty to PHP, so the fallback label is shown. */
  lemma ProjectNamedZero()
    ensures RenderProject(Task("42", "Ship it", None, "inbox", "1", None, [Project("7", "0", None)]))
      == CrumbOpen + Fallback + CrumbClose
  {
    LineageEmptyIff(Task("42", "Ship it", None, "inbox", "1", None, [Project("7", "0", None)]));
  }

  /** A due date of "0" is empty to PHP, so no date span is rendered. */
  lemma DueDateZero(formatDate: string -> string)
    ensures !HasDueDate(Task("42", "Ship it", Some("0"), "inbox", "1", None, []))
    ensures EndsWith(RenderTask(Task("42", "Ship it", Some("0"), "inbox", "1", None, []), formatDate), "</a> </p>")
  {
    DueSpanIff(Task("42", "Ship it", Some("0"), "inbox", "1", None, []), formatDate);
  }

  /** An inbox task in project "Website", due on 5 March 2024. */
  function Homepage(): Task
  {
    Task("1001", "Update homepage", Some("2024-03-05"), "inbox", "1", None, [Website()])
  }

  /** A completed task with no project. */
  function Chore(): Task
  {
    Task("1002", "Old chore", None, "completed", "1", None, [])
  }

  /** The listing of a service whose workspace "1" holds the two tasks above, in that
      order, and whose other workspaces are empty. */
  function Listing(workspace: string): seq<Task>
  {
    if workspace == "1" then [Homepage(), Chore()] else []
  }

  /** The homepage task's paragraph: its first project as breadcrumb, a link under that
      project, and its due-date span at the end. */
  lemma HomepageParagraph(formatDate: string -> string)
    ensures RenderProject(Homepage()) == CrumbOpen + "Website" + CrumbClose
    ensures TaskUrl(Homepage()) == "https://app.asana.com/0/7/1001"
    ensures EndsWith(RenderTask(Homepage(), formatDate), RenderDueDate("2024-03-05", formatDate) + "</p>")
  {
    OwnProjectLineage(Homepage());
    RenderTaskShape(Homepage(), formatDate);
  }

  /** One workspace with the inbox task and the completed task: the digest holds the
      inbox task's paragraph and nothing of the completed one. */
  lemma OneWorkspaceDigest(formatDate: string -> string)
    ensures Email(["1"], Listing, Paragraph(formatDate)) == Intro + RenderTask(Homepage(), formatDate) + SectionEnd
  {
    var a, b := Homepage(), Chore();
    var render := Paragraph(formatDate);
    assert Listing("1") == [a, b];
    assert Pending([a, b]) == [a] by {
      assert [a, b] == [a] + [b];
      PendingAppend([a], [b]);
      PendingSingle(a);
      PendingSingle(b);
    }
    ParagraphsSingle(a, render);
    assert render(a) == RenderTask(a, formatDate);
    SectionsSingle("1", Listing, render);
    ConcatAssoc(Intro, RenderTask(a, formatDate), SectionEnd);
  }
}
