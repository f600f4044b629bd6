/** Rendering of one task: the project breadcrumb, the deep link, the due-date span
    and the paragraph that composes them. These are the straight-line methods of the
    mailer class; their only mutation is the reassignment of locals, so each one is a
    function here. */
module TaskRender {
  import opened Records

  /** The separator between breadcrumb segments: the literal HTML entity text. */
  const Separator: string := " &rsaquo; "
  const Fallback: string := "No Project Assigned"
  const CrumbOpen: string := "<small style=\"color: #999; text-transform: uppercase; letter-spacing: 1px;\">"
  const CrumbClose: string := "</small><br>"
  const UrlPrefix: string := "https://app.asana.com/0/"
  const DueOpen: string := "<small style=\"color: #999; font-style: italic;\">"
  const DueClose: string := "</small>"

  /** The task whose lineage and projects describe `t`: its parent when it has one. */
  function Subject(t: Task): Task
  {
    match t.parent
    case Some(p) => p
    case None => t
  }

  /** The breadcrumb text accumulated before the fallback test: the team prefix and the
      name of the subject's first project, then the parent's name. */
  function Lineage(t: Task): string
  {
    var subject := Subject(t);
    var teamPart :=
      if |subject.projects| > 0 && subject.projects[0].team.Some?
      then subject.projects[0].team.value.name + Separator else "";
    var projectPart := if |subject.projects| > 0 then subject.projects[0].name else "";
    var parentPart := if t.parent.Some? then Separator + t.parent.value.name else "";
    teamPart + projectPart + parentPart
  }

  /** The label shown inside the breadcrumb: the lineage, or the fallback label when the
      lineage is empty in PHP's sense. */
  function Label(t: Task): (l: string)
    ensures l == Lineage(t) || l == Fallback
  {
    if PhpEmpty(Lineage(t)) then Fallback else Lineage(t)
  }

  /** renderProject: the styled breadcrumb followed by a line break. */
  function RenderProject(t: Task): string
  {
    CrumbOpen + Label(t) + CrumbClose
  }

  /** The breadcrumb is the label inside the styled `small` element, then a line break. */
  lemma RenderProjectShape(t: Task)
    ensures StartsWith(RenderProject(t), CrumbOpen) && EndsWith(RenderProject(t), CrumbClose)
    ensures |RenderProject(t)| == |CrumbOpen| + |Label(t)| + |CrumbClose|
    ensures RenderProject(t)[|CrumbOpen|..|RenderProject(t)| - |CrumbClose|] == Label(t)
  {
    Framed(CrumbOpen, Label(t), CrumbClose);
  }

  /** The lineage is PHP-empty exactly when there is no parent and the first project
      (if any) has no team and a PHP-empty name. */
  lemma LineageEmptyIff(t: Task)
    ensures PhpEmpty(Lineage(t)) <==>
      t.parent.None? &&
      (|t.projects| == 0 || (t.projects[0].team.None? && PhpEmpty(t.projects[0].name)))
  {
    var subject := Subject(t);
    if t.parent.Some? {
      var l := Lineage(t);
      EndsWithConcat(l[..|l| - |Separator + t.parent.value.name|], Separator + t.parent.value.name);
      assert |l| >= |Separator|;
    } else if |t.projects| > 0 && t.projects[0].team.Some? {
      assert Lineage(t) == t.projects[0].team.value.name + Separator + t.projects[0].name;
      assert |Lineage(t)| >= |Separator|;
    }
  }

  /** With no parent and no projects the breadcrumb is exactly the fallback label. */
  lemma NoProjectFallback(t: Task)
    requires t.parent.None? && |t.projects| == 0
    ensures RenderProject(t) == CrumbOpen + Fallback + CrumbClose
  {
    assert Lineage(t) == "";
  }

  /** The breadcrumb shows the fallback label exactly when the task has no parent and
      either no projects or a first project without a team whose name is PHP-empty
      (or when the accumulated text happens to spell the fallback label itself). */
  lemma FallbackIff(t: Task)
    ensures RenderProject(t) == CrumbOpen + Fallback + CrumbClose <==>
      (t.parent.None? &&
       (|t.projects| == 0 || (t.projects[0].team.None? && PhpEmpty(t.projects[0].name))))
      || Lineage(t) == Fallback
  {
    LineageEmptyIff(t);
    RenderProjectShape(t);
    Framed(CrumbOpen, Fallback, CrumbClose);
  }

  /** Without a parent, a team prefix appears exactly when the first project has a team,
      and the project segment is the first project's name. */
  lemma OwnProjectLineage(t: Task)
    requires t.parent.None? && |t.projects| > 0
    ensures t.projects[0].team.Some? ==>
      Lineage(t) == t.projects[0].team.value.name + Separator + t.projects[0].name
    ensures t.projects[0].team.None? ==> Lineage(t) == t.projects[0].name
  {
  }

  /** The breadcrumb of a subtask is the breadcrumb its parent would have as a top-level
      task, extended by the parent's name: the subtask's own projects play no part. */
  lemma ParentLineage(t: Task)
    requires t.parent.Some?
    ensures Lineage(t) == Lineage(t.parent.value.(parent := None)) + Separator + t.parent.value.name
    ensures EndsWith(Label(t), Separator + t.parent.value.name)
    ensures Label(t) == Lineage(t)
  {
    var p := t.parent.value;
    LineageEmptyIff(t);
    var pre := Lineage(p.(parent := None));
    assert Lineage(t) == pre + (Separator + p.name);
    EndsWithConcat(pre, Separator + p.name);
  }

  /** Two subtasks of the same parent get the same breadcrumb regardless of their own
      names, projects or other fields. */
  lemma ParentReplacesTask(t: Task, u: Task)
    requires t.parent.Some? && t.parent == u.parent
    ensures RenderProject(t) == RenderProject(u)
  {
  }

  /** A parent without projects leaves a leading separator before its name. */
  lemma ParentWithoutProjects(t: Task)
    requires t.parent.Some? && |t.parent.value.projects| == 0
    ensures RenderProject(t) == CrumbOpen + Separator + t.parent.value.name + CrumbClose
  {
    ParentLineage(t);
  }

  /** `t` with every project after the first dropped, both its own and its parent's. */
  function FirstProjectOnly(t: Task): (u: Task)
    ensures u.id == t.id && u.name == t.name && u.workspaceId == t.workspaceId
    ensures u.parent.Some? <==> t.parent.Some?
    ensures |u.projects| == if |t.projects| == 0 then 0 else 1
    ensures |t.projects| > 0 ==> u.projects[0] == t.projects[0]
  {
    var trimmedParent :=
      match t.parent
      case Some(p) => Some(p.(projects := if |p.projects| == 0 then [] else p.projects[..1]))
      case None => None;
    t.(projects := if |t.projects| == 0 then [] else t.projects[..1], parent := trimmedParent)
  }

  /** Projects after the first never affect the breadcrumb. */
  lemma BreadcrumbUsesFirstProjectOnly(t: Task)
    ensures RenderProject(FirstProjectOnly(t)) == RenderProject(t)
  {
    var u := FirstProjectOnly(t);
    assert Subject(u).projects == (if |Subject(t).projects| == 0 then [] else Subject(t).projects[..1]);
    assert Lineage(u) == Lineage(t);
  }

  /** taskUrl: the deep link. The task segment is always the original task's id; the
      project segment is looked up on the subject and defaults to the original task's
      workspace. */
  function TaskUrl(t: Task): (r: string)
    ensures t.parent.Some? && |t.parent.value.projects| > 0 ==>
      r == UrlPrefix + t.parent.value.projects[0].id + "/" + t.id
    ensures t.parent.Some? && |t.parent.value.projects| == 0 ==>
      r == UrlPrefix + t.workspaceId + "/" + t.id
    ensures t.parent.None? && |t.projects| > 0 ==>
      r == UrlPrefix + t.projects[0].id + "/" + t.id
    ensures t.parent.None? && |t.projects| == 0 ==>
      r == UrlPrefix + t.workspaceId + "/" + t.id
  {
    var taskId := t.id;
    var projectId := t.workspaceId;
    var subject := Subject(t);
    var linked := if |subject.projects| > 0 then subject.projects[0].id else projectId;
    UrlPrefix + linked + "/" + taskId
  }

  /** Projects after the first never affect the link. */
  lemma UrlUsesFirstProjectOnly(t: Task)
    ensures TaskUrl(FirstProjectOnly(t)) == TaskUrl(t)
  {
  }

  /** Splits a deep link back into its project segment and task segment: the text after
      the fixed prefix, cut at its first '/'. */
  function ParseTaskUrl(u: string): (r: Option<(string, string)>)
    ensures r.Some? ==> u == UrlPrefix + r.value.0 + "/" + r.value.1 && '/' !in r.value.0
  {
    if !StartsWith(u, UrlPrefix) then None
    else
      var rest := u[|UrlPrefix|..];
      assert u == UrlPrefix + rest;
      SplitAtSlash(rest)
  }

  /** Cuts `s` at its first '/'. */
  function SplitAtSlash(s: string): (r: Option<(string, string)>)
    ensures r.Some? ==> s == r.value.0 + "/" + r.value.1 && '/' !in r.value.0
    ensures r.None? ==> '/' !in s
  {
    if s == [] then None
    else if s[0] == '/' then Some(([], s[1..]))
    else match SplitAtSlash(s[1..])
      case None => None
      case Some(pair) => Some(([s[0]] + pair.0, pair.1))
  }

  lemma {:induction false} SplitAtSlashOf(a: string, b: string)
    requires '/' !in a
    ensures SplitAtSlash(a + "/" + b) == Some((a, b))
  {
    if a == [] {
      assert a + "/" + b == "/" + b;
    } else {
      assert (a + "/" + b)[1..] == a[1..] + "/" + b;
      SplitAtSlashOf(a[1..], b);
      assert [a[0]] + a[1..] == a;
    }
  }

  /** The link identifies the original task: when project ids contain no '/', parsing the
      link gives back the linked project's id and the original task's id, never the
      parent's. */
  lemma {:induction false} UrlRoundTrip(t: Task)
    requires '/' !in (if |Subject(t).projects| > 0 then Subject(t).projects[0].id else t.workspaceId)
    ensures ParseTaskUrl(TaskUrl(t)).Some?
    ensures ParseTaskUrl(TaskUrl(t)).value.1 == t.id
    ensures ParseTaskUrl(TaskUrl(t)).value.0 ==
      if |Subject(t).projects| > 0 then Subject(t).projects[0].id else t.workspaceId
  {
    var s := Subject(t);
    var linked := if |s.projects| > 0 then s.projects[0].id else t.workspaceId;
    var u := TaskUrl(t);
    assert u == UrlPrefix + (linked + "/" + t.id);
    StartsWithConcat(UrlPrefix, linked + "/" + t.id);
    assert u[|UrlPrefix|..] == linked + "/" + t.id;
    SplitAtSlashOf(linked, t.id);
  }

  /** renderDueDate: the formatted date in its muted italic span. The calendar
      formatting ("05 Mar 2024" in the America/New_York zone) is the parameter
      `formatDate`. */
  function RenderDueDate(due: string, formatDate: string -> string): string
  {
    DueOpen + formatDate(due) + DueClose
  }

  /** The due-date span holds exactly the formatted date. */
  lemma RenderDueDateShape(due: string, formatDate: string -> string)
    ensures StartsWith(RenderDueDate(due, formatDate), DueOpen)
    ensures EndsWith(RenderDueDate(due, formatDate), DueClose)
    ensures |RenderDueDate(due, formatDate)| == |DueOpen| + |formatDate(due)| + |DueClose|
    ensures RenderDueDate(due, formatDate)[|DueOpen|..|RenderDueDate(due, formatDate)| - |DueClose|] == formatDate(due)
  {
    Framed(DueOpen, formatDate(due), DueClose);
  }

  /** The paragraph shows a due date exactly when `due_on` is present and not PHP-empty. */
  predicate HasDueDate(t: Task)
  {
    t.dueOn.Some? && !PhpEmpty(t.dueOn.value)
  }

  const AnchorClose: string := "</strong></a> "

  /** The opening of the link, up to the task's name. */
  function AnchorOpen(t: Task): string
  {
    "<a href=\"" + TaskUrl(t) + "\"><strong>"
  }

  /** The link around the task's name, and the space after it. */
  function Anchor(t: Task): string
  {
    AnchorOpen(t) + t.name + AnchorClose
  }

  /** The link points at the task's URL and shows its name verbatim: no HTML escaping. */
  lemma AnchorShape(t: Task)
    ensures StartsWith(Anchor(t), "<a href=\"" + TaskUrl(t) + "\"><strong>")
    ensures EndsWith(Anchor(t), "</strong></a> ")
    ensures |Anchor(t)| == |AnchorOpen(t)| + |t.name| + |AnchorClose|
    ensures Anchor(t)[|AnchorOpen(t)|..|Anchor(t)| - |AnchorClose|] == t.name
  {
    Framed(AnchorOpen(t), t.name, AnchorClose);
  }

  /** The due-date span, or nothing when the task has no due date. */
  function DueSpan(t: Task, formatDate: string -> string): string
  {
    if HasDueDate(t) then RenderDueDate(t.dueOn.value, formatDate) else ""
  }

  /** renderTask: one paragraph holding the breadcrumb, the link and, when there is a due
      date, its span. */
  function RenderTask(t: Task, formatDate: string -> string): string
  {
    "<p>" + RenderProject(t) + Anchor(t) + (DueSpan(t, formatDate) + "</p>")
  }

  /** The paragraph is exactly the opening tag, the breadcrumb and the link, followed by
      the due-date span (empty without a due date) and the closing tag. */
  lemma RenderTaskShape(t: Task, formatDate: string -> string)
    ensures StartsWith(RenderTask(t, formatDate), "<p>" + RenderProject(t) + Anchor(t))
    ensures EndsWith(RenderTask(t, formatDate), DueSpan(t, formatDate) + "</p>")
    ensures |RenderTask(t, formatDate)| ==
      |"<p>" + RenderProject(t) + Anchor(t)| + |DueSpan(t, formatDate) + "</p>"|
    ensures HasDueDate(t) ==> DueSpan(t, formatDate) == RenderDueDate(t.dueOn.value, formatDate)
    ensures !HasDueDate(t) ==> DueSpan(t, formatDate) == ""
  {
    var head := "<p>" + RenderProject(t) + Anchor(t);
    var tail := DueSpan(t, formatDate) + "</p>";
    StartsWithConcat(head, tail);
    EndsWithConcat(head, tail);
  }

  /** The closing tags of a paragraph with a due-date span. */
  lemma DueCloseTail(head: string, front: string)
    ensures EndsWith(head + ((front + DueClose) + "</p>"), DueClose + "</p>")
  {
    ConcatAssoc(front, DueClose, "</p>");
    EndsWithConcat(front, DueClose + "</p>");
    EndsWithAppend(head, (front + DueClose) + "</p>", DueClose + "</p>");
  }

  /** The closing tags of a paragraph without a due-date span. */
  lemma AnchorCloseTail(lead: string, named: string, due: string)
    requires due == ""
    ensures EndsWith(lead + (named + AnchorClose) + (due + "</p>"), "</a> </p>")
  {
    assert due + "</p>" == "</p>";
    ConcatAssoc(lead, named, AnchorClose);
    ConcatAssoc(lead + named, AnchorClose, "</p>");
    assert AnchorClose + "</p>" == "</strong>" + "</a> </p>";
    EndsWithConcat("</strong>", "</a> </p>");
    EndsWithAppend(lead + named, AnchorClose + "</p>", "</a> </p>");
  }

  /** With a due date the paragraph ends with the span's closing tag. */
  lemma DueTail(t: Task, formatDate: string -> string)
    requires HasDueDate(t)
    ensures EndsWith(RenderTask(t, formatDate), DueClose + "</p>")
  {
    DueCloseTail("<p>" + RenderProject(t) + Anchor(t), DueOpen + formatDate(t.dueOn.value));
  }

  /** Without a due date the paragraph ends with the link's closing tag and its space. */
  lemma NoDueTail(t: Task, formatDate: string -> string)
    requires !HasDueDate(t)
    ensures EndsWith(RenderTask(t, formatDate), "</a> </p>")
  {
    AnchorCloseTail("<p>" + RenderProject(t), AnchorOpen(t) + t.name, DueSpan(t, formatDate));
  }

  /** No string ends both ways. */
  lemma TailsDiffer(r: string)
    requires EndsWith(r, DueClose + "</p>")
    ensures !EndsWith(r, "</a> </p>")
  {
    assert r[|r| - 6] == r[|r| - 12..][6] == 'l';
  }

  /** Every paragraph is closed, and the due-date span is present exactly when the task
      has a due date: the paragraph then ends with the span's closing tag, otherwise with
      the link's closing tag and its trailing space. */
  lemma DueSpanIff(t: Task, formatDate: string -> string)
    ensures EndsWith(RenderTask(t, formatDate), "</p>")
    ensures HasDueDate(t) <==> EndsWith(RenderTask(t, formatDate), DueClose + "</p>")
    ensures !HasDueDate(t) <==> EndsWith(RenderTask(t, formatDate), "</a> </p>")
  {
    var r := RenderTask(t, formatDate);
    if HasDueDate(t) {
      DueTail(t, formatDate);
      TailsDiffer(r);
      EndsWithConcat(DueClose, "</p>");
      EndsWithTrans(r, DueClose + "</p>", "</p>");
    } else {
      NoDueTail(t, formatDate);
      if EndsWith(r, DueClose + "</p>") {
        TailsDiffer(r);
        assert false;
      }
      EndsWithConcat("</a> ", "</p>");
      EndsWithTrans(r, "</a> </p>", "</p>");
    }
  }

  /** The assignee status only decides whether a task is listed, never how it looks. */
  lemma RenderIgnoresStatus(t: Task, status: string, formatDate: string -> string)
    ensures RenderTask(t.(assigneeStatus := status), formatDate) == RenderTask(t, formatDate)
  {
    var u := t.(assigneeStatus := status);
    assert Subject(u).projects == Subject(t).projects;
    assert Lineage(u) == Lineage(t);
    assert RenderProject(u) == RenderProject(t);
    assert TaskUrl(u) == TaskUrl(t);
    assert Anchor(u) == Anchor(t);
    assert DueSpan(u, formatDate) == DueSpan(t, formatDate);
  }
}
