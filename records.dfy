/** The task records the digest renderer reads: the decoded JSON objects that the
    task-tracking service returns for one workspace, with every loosely typed
    field ("may be null", "may be missing") made an explicit option. */
module Records {

  datatype Option<+T> = None | Some(value: T)

  /** The team a project belongs to; only its name is requested from the service. */
  datatype Team = Team(name: string)

  /** A project reference nested in a task. */
  datatype Project = Project(id: string, name: string, team: Option<Team>)

  /** A task as returned by the service. Identifiers are kept as their decimal text,
      which is what string concatenation in the renderer produces from them.
      `parent` is the task this one is a subtask of; `projects` keeps the service's order. */
  datatype Task = Task(
    id: string,
    name: string,
    dueOn: Option<string>,
    assigneeStatus: string,
    workspaceId: string,
    parent: Option<Task>,
    projects: seq<Project>)

  /** PHP's `empty()` on a string: true exactly for "" and "0". */
  predicate PhpEmpty(s: string)
  {
    s == "" || s == "0"
  }

  /** The status test of the workspace loop: the task awaits the user's attention. */
  predicate Qualifies(t: Task)
  {
    t.assigneeStatus == "upcoming" || t.assigneeStatus == "inbox"
  }

  /** A string ends with a given suffix. */
  predicate EndsWith(s: string, suffix: string)
  {
    |suffix| <= |s| && s[|s| - |suffix|..] == suffix
  }

  /** A string starts with a given prefix. */
  predicate StartsWith(s: string, prefix: string)
  {
    |prefix| <= |s| && s[..|prefix|] == prefix
  }

  lemma EndsWithConcat(a: string, b: string)
    ensures EndsWith(a + b, b)
  {
    assert (a + b)[|a + b| - |b|..] == b;
  }

  lemma StartsWithConcat(a: string, b: string)
    ensures StartsWith(a + b, a)
  {
    assert (a + b)[..|a|] == a;
  }

  /** `open + mid + close` starts with `open`, ends with `close`, and holds `mid` between them. */
  lemma Framed(open: string, mid: string, close: string)
    ensures StartsWith(open + mid + close, open) && EndsWith(open + mid + close, close)
    ensures |open + mid + close| == |open| + |mid| + |close|
    ensures (open + mid + close)[|open|..|open + mid + close| - |close|] == mid
  {
    var r := open + mid + close;
    assert r[..|open|] == open;
    assert r[|r| - |close|..] == close;
    assert r[|open|..|r| - |close|] == mid;
  }

  lemma ConcatAssoc(x: string, y: string, z: string)
    ensures x + (y + z) == (x + y) + z
  {
  }

  /** A suffix of `y` is a suffix of `x + y`. */
  lemma EndsWithAppend(x: string, y: string, suffix: string)
    requires EndsWith(y, suffix)
    ensures EndsWith(x + y, suffix)
  {
    EndsWithConcat(x, y);
    EndsWithTrans(x + y, y, suffix);
  }

  /** A suffix of a suffix is a suffix. */
  lemma EndsWithTrans(s: string, mid: string, suffix: string)
    requires EndsWith(s, mid) && EndsWith(mid, suffix)
    ensures EndsWith(s, suffix)
  {
    assert s[|s| - |suffix|..] == s[|s| - |mid|..][|mid| - |suffix|..];
  }
}
