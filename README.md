# AsanaMailer digest renderer, modelled in Dafny

AsanaMailer is a scheduled job. It lists the current user's tasks in each configured
Asana workspace and turns them into one HTML digest. This project models the part of
`AsanaMailer` that computes the digest:

- the status filter that keeps `upcoming` and `inbox` tasks;
- the breadcrumb (`renderProject`): team, first project, parent name, or the fallback
  label `No Project Assigned`;
- the deep link (`taskUrl`);
- the task paragraph (`renderTask`);
- the per-workspace section (`renderWorkspaceTasks`) and the whole digest (`renderEmail`).

Files:

- `records.dfy`, module `Records`: the task and project records, with every nullable
  field made an `Option`. Also PHP's `empty()` on strings (`PhpEmpty`: `""` or `"0"`)
  and the status test.
- `render.dfy`, module `TaskRender`: breadcrumb, link, due-date span and paragraph,
  written as functions. In the source they are straight-line code that only reassigns
  locals, including the substitution `$task = $task->parent`.
- `digest.dfy`, module `Digest`: the two accumulator loops, written as methods. Their
  loop invariants tie the accumulated string to recursive specification functions
  (`Pending`, `Paragraphs`, `Section`, `Sections`, `Email`). Lemmas state what those
  functions guarantee. The specification functions take the paragraph renderer as a
  parameter `render`, because how sections and the digest are assembled does not depend
  on what a paragraph looks like. The methods use them with `Paragraph(formatDate)`,
  which is `renderTask` with the date formatting fixed.
- `scenarios.dfy`, module `Scenarios`: concrete tasks worked through the model.

Inputs that the source reads from the outside world become parameters:

- The task listing (`getTasks`) is `tasksOf: string -> seq<Task>`, from workspace id to
  the decoded tasks.
- The configured workspace list is a `seq<string>`.
- The calendar formatting inside `renderDueDate` is `formatDate: string -> string`.

Identifiers are kept as strings, meaning the decimal text that PHP's concatenation
produces from them. Task names are put into the HTML without escaping, as in the source.
The breadcrumb separator is the literal entity text ` &rsaquo; `.

Four behaviours of the source are easy to misread; the model follows the code:

- The separator is that entity text, not a Unicode character.
- The fallback label is used when the accumulated text is PHP-empty. So a lone first
  project named `"0"`, with no team and no parent, shows `No Project Assigned`
  (`Scenarios.ProjectNamedZero`).
- A due date of `"0"` is not rendered (`Scenarios.DueDateZero`).
- A parent without projects gives the breadcrumb ` &rsaquo; <parent name>`, with a
  leading separator (`TaskRender.ParentWithoutProjects`).

## Model

| member | source | states |
|---|---|---|
| `TaskRender.Label` | asana-mailer.php:122-123 | the label shown is either the accumulated breadcrumb text or `No Project Assigned` |
| `TaskRender.RenderProjectShape` | asana-mailer.php:125 | the breadcrumb starts with the styled `<small …>` opening tag and ends with `</small><br>`, and what lies between them is exactly the label |
| `TaskRender.LineageEmptyIff` | asana-mailer.php:104-123 | the accumulated breadcrumb text is PHP-empty iff there is no parent and the first project, if any, has no team and a PHP-empty name |
| `TaskRender.NoProjectFallback` | asana-mailer.php:122-125 | a task with no parent and no projects renders exactly the wrapper around `No Project Assigned` |
| `TaskRender.FallbackIff` | asana-mailer.php:104-125 | the breadcrumb shows `No Project Assigned` exactly when the task has no parent and either no projects or a first project without a team whose name is PHP-empty (or when the accumulated text itself spells that label) |
| `TaskRender.OwnProjectLineage` | asana-mailer.php:110-116 | with no parent, the text is `team + " &rsaquo; " + project` when the first project has a team, and just the first project's name when it has none |
| `TaskRender.ParentLineage` | asana-mailer.php:104-120 | a subtask's breadcrumb text is its parent's own breadcrumb text plus `" &rsaquo; " + parent.name`; it is never the fallback |
| `TaskRender.ParentReplacesTask` | asana-mailer.php:104-108 | two subtasks of the same parent get the same breadcrumb, whatever their own projects and fields |
| `TaskRender.ParentWithoutProjects` | asana-mailer.php:104-120 | when the parent has no projects, the breadcrumb text is `" &rsaquo; " + parent.name`, with a leading separator |
| `TaskRender.BreadcrumbUsesFirstProjectOnly` | asana-mailer.php:110-116 | dropping every project after the first, of the task and of its parent, leaves the breadcrumb unchanged |
| `TaskRender.TaskUrl` | asana-mailer.php:134-145 | the link is `https://app.asana.com/0/` + the parent's first project id (parent with projects), else the workspace id (parent without projects), else the task's first project id (no parent, with projects), else the workspace id; then `/` + the original task's id |
| `TaskRender.UrlUsesFirstProjectOnly` | asana-mailer.php:138-142 | projects after the first never change the link |
| `TaskRender.UrlRoundTrip` | asana-mailer.php:134-144 | when the project or workspace id placed in the link contains no `/`, the link splits back into the project id looked up on the parent-or-task and the original task's id, never the parent's id |
| `TaskRender.RenderDueDateShape` | asana-mailer.php:153-160 | the due-date span starts with the muted italic `<small …>` tag and ends with `</small>`, and what lies between them is exactly the formatted date |
| `TaskRender.AnchorShape` | asana-mailer.php:174 | the link starts with `<a href="` + the task's URL + `"><strong>` and ends with `</strong></a> `, and what lies between them is the task name verbatim (unescaped) |
| `TaskRender.RenderTaskShape` | asana-mailer.php:168-182 | the paragraph starts with `<p>` + breadcrumb + link and ends with the due-date span followed by `</p>`, with nothing in between; the span is the rendered `due_on` when it is present and not PHP-empty, and empty otherwise |
| `TaskRender.DueTail` | asana-mailer.php:176-179 | a task with a due date yields a paragraph ending with `</small></p>` |
| `TaskRender.NoDueTail` | asana-mailer.php:174-179 | a task without a due date yields a paragraph ending with the link's `</a> ` and `</p>` |
| `TaskRender.DueSpanIff` | asana-mailer.php:174-179 | every paragraph ends with `</p>`; it ends with the span's `</small></p>` iff the task has a due date, and with `</a> </p>` iff it has none |
| `TaskRender.RenderIgnoresStatus` | asana-mailer.php:168-182 | the assignee status never affects how a task is rendered |
| `Digest.Pending` | asana-mailer.php:68-72 | the filtered list is no longer than the input and holds only `upcoming` or `inbox` tasks |
| `Digest.PendingAppend` | asana-mailer.php:68-72 | filtering distributes over concatenation, so surviving tasks keep their input order |
| `Digest.PendingSingle` | asana-mailer.php:69 | a single task is kept iff its status is exactly `upcoming` or `inbox` |
| `Digest.PendingMembers` | asana-mailer.php:68-72 | a task is listed iff it is in the input and its status qualifies |
| `Digest.PendingCount` | asana-mailer.php:68-72 | each qualifying task is listed as often as it occurs in the input (each occurrence rendered exactly once); others never |
| `Digest.PendingEmptyIff` | asana-mailer.php:68-72 | nothing is listed iff no task qualifies |
| `Digest.ParagraphsEmptyIff` | asana-mailer.php:68-72 | the concatenated paragraphs are empty iff there are no tasks to render |
| `Digest.ParagraphsAppend` | asana-mailer.php:68-72 | paragraphs of a concatenated task list are the paragraphs of each part, in order |
| `Digest.ParagraphsSingle` | asana-mailer.php:70 | one task contributes exactly its own paragraph |
| `Digest.PendingParagraphsStep` | asana-mailer.php:68-72 | one loop iteration appends the task's paragraph when its status qualifies, and leaves the accumulated paragraphs unchanged otherwise |
| `Digest.SectionTerminated` | asana-mailer.php:74 | every workspace section ends with `<br><br>` |
| `Digest.SectionEmptyIff` | asana-mailer.php:65-74 | a section is exactly `<br><br>` iff none of its tasks qualifies |
| `Digest.SectionSkipsNonQualifying` | asana-mailer.php:68-72 | inserting a non-qualifying task anywhere leaves the section unchanged |
| `Digest.SectionRendersQualifying` | asana-mailer.php:68-72 | a qualifying task contributes its own paragraph at its own position, between the paragraphs of the tasks before it and the section of the tasks after it |
| `Digest.RenderWorkspaceTasks` | asana-mailer.php:64-75 | the loop's result is the paragraphs of the qualifying tasks, in order, followed by `<br><br>` |
| `Digest.SectionsAppend` | asana-mailer.php:88-90 | the sections of a concatenated workspace list are the sections of each part, in order |
| `Digest.SectionsSingle` | asana-mailer.php:88-90 | one workspace contributes exactly its section |
| `Digest.EmailShape` | asana-mailer.php:83-92 | the digest starts with the fixed intro; with at least one workspace it ends with `<br><br>`; with none it is just the intro |
| `Digest.EmailNoWorkspaces` | asana-mailer.php:84-92 | with no workspaces the digest is exactly the intro |
| `Digest.EmailAppendWorkspace` | asana-mailer.php:88-90 | appending a workspace to the configuration appends exactly its section to the digest |
| `Digest.EmailConcat` | asana-mailer.php:88-90 | the digest of two workspace lists in sequence is the first digest followed by the second list's sections |
| `Digest.RenderEmail` | asana-mailer.php:83-93 | the loop's result is the intro followed by each configured workspace's section, in configured order |
| `Scenarios.UrlWithoutProjects` | asana-mailer.php:134-144 | task `42` in workspace `1`, with no parent and no projects, links to `https://app.asana.com/0/1/42` |
| `Scenarios.UrlUnderParentProject` | asana-mailer.php:134-144 | task `42` whose parent's first project is `99` links to `https://app.asana.com/0/99/42` |
| `Scenarios.UrlParentWithoutProjects` | asana-mailer.php:134-144 | a subtask whose parent has no projects links to its workspace, even though it has a project of its own |
| `Scenarios.BreadcrumbTeamProjectParent` | asana-mailer.php:104-125 | parent `Launch` in project `Web` of team `Marketing` gives `Marketing &rsaquo; Web &rsaquo; Launch` |
| `Scenarios.ProjectNamedZero` | asana-mailer.php:115-123 | a lone project named `"0"` yields the fallback label |
| `Scenarios.DueDateZero` | asana-mailer.php:176-177 | a due date of `"0"` renders no date span |
| `Scenarios.HomepageParagraph` | asana-mailer.php:101-182 | a task in project `Website` (id `7`), with no team and no parent, has the breadcrumb `Website`, links to `https://app.asana.com/0/7/1001`, and its paragraph ends with its due-date span and `</p>` |
| `Scenarios.OneWorkspaceDigest` | asana-mailer.php:64-93 | with one workspace holding an inbox task and then a completed task, the digest is the intro + the inbox task's paragraph + `<br><br>` |

## Left out

- The constructor (asana-mailer.php:13-29) reads `asana.yml` with a YAML library and builds the API client. That is file I/O and foreign code. Its one result, the workspace list, is a parameter.
- `getTasks` (asana-mailer.php:37-57) makes a remote API call and decodes JSON. Its result is the parameter `tasksOf`. A failing or malformed response is not modelled, so neither is PHP's behaviour when `->data` is missing.
- `renderDueDate`'s `DateTime` parsing and `'d M Y'` formatting in the America/New_York zone is library behaviour. It is the parameter `formatDate`. The unused `$date_today` (line 154) is dropped. A `due_on` that `DateTime` cannot parse throws an uncaught exception (line 155), which aborts the run before anything is printed. That failure is not modelled, because the service sends `due_on` as `YYYY-MM-DD` or null, so `formatDate` is total and `RenderEmail` always returns a digest.
- The script's entry (asana-mailer.php:185-189) only echoes the digest and exits with 0. It has no email sending and no exit-code mapping, so none is modelled.
- `renderWorkspaceTasks` and `renderEmail` are methods of the `AsanaMailer` object in the source. They never change its fields, so here they are module-level methods that take the workspace list and the task listing as parameters.
- Loosely typed inputs are narrowed: `projects` is always a sequence (a non-array reads as empty, as `is_array` does), names and ids are strings, and a parent's name is never null. This means the case of a parent whose name is null, where `isset($parent)` would drop the suffix, is not modelled.
- HTML escaping: the source has none, and none is added.
