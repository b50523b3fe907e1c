/**
 * The race-week task list's local edits: the add guard and the prepend of a
 * created task, toggling and deleting by id, and accepting a fetched list.
 * The requests themselves are left to the caller: the server's answers come
 * in as parameters.
 */
module Tasks {
  import opened Wrappers

  /** A task record as the server returns it. */
  datatype Task = Task(id: string, text: string, done: bool, createdAt: string)

  /** The body of the create request. */
  datatype Payload = Payload(userId: string, text: string)

  /** A fetched JSON value, as far as the page looks at it: an array of tasks or anything else. */
  datatype Fetched = TaskArray(items: seq<Task>) | NotAnArray

  /** The characters `String.prototype.trim` removes: white space and line terminators. */
  predicate IsSpace(c: char)
  {
    || c == '\t' || c == '\n' || c == '\U{B}' || c == '\U{C}' || c == '\r' || c == ' '
    || c == '\U{A0}' || c == '\U{1680}' || ('\U{2000}' <= c <= '\U{200A}')
    || c == '\U{2028}' || c == '\U{2029}' || c == '\U{202F}' || c == '\U{205F}'
    || c == '\U{3000}' || c == '\U{FEFF}'
  }

  /** The text with its leading white space removed. */
  function TrimStart(s: string): (r: string)
    ensures |r| <= |s| && r == s[|s| - |r|..]
    ensures r == [] || !IsSpace(r[0])
    ensures forall i :: 0 <= i < |s| - |r| ==> IsSpace(s[i])
  {
    if s != [] && IsSpace(s[0]) then TrimStart(s[1..]) else s
  }

  /** The text with its trailing white space removed. */
  function TrimEnd(s: string): (r: string)
    ensures |r| <= |s| && r == s[..|r|]
    ensures r == [] || !IsSpace(r[|r| - 1])
    ensures forall i :: |r| <= i < |s| ==> IsSpace(s[i])
  {
    if s != [] && IsSpace(s[|s| - 1]) then TrimEnd(s[..|s| - 1]) else s
  }

  /** `trim()`: empty exactly when the text is all white space, and otherwise without white space at either end. */
  function Trim(s: string): (r: string)
    ensures r == [] <==> forall i :: 0 <= i < |s| ==> IsSpace(s[i])
    ensures r != [] ==> !IsSpace(r[0]) && !IsSpace(r[|r| - 1])
    ensures TrimmedAt(s, r, |s| - |TrimStart(s)|)
  {
    var t := TrimStart(s);
    var r := TrimEnd(t);
    TrimSlice(s, t, r);
    TrimEmpty(s, r, |s| - |t|);
    r
  }

  /** A trimmed slice is empty exactly when the whole text is white space. */
  lemma TrimEmpty(s: string, r: string, i: nat)
    requires TrimmedAt(s, r, i)
    requires r != [] ==> !IsSpace(r[0])
    ensures r == [] <==> forall k :: 0 <= k < |s| ==> IsSpace(s[k])
  {
    if r != [] {
      assert s[i] == r[0];
    }
  }

  /**
   * r is the slice of s starting at i, and everything in s before or after
   * that slice is white space.
   */
  predicate TrimmedAt(s: string, r: string, i: nat)
  {
    && i + |r| <= |s| && r == s[i..i + |r|]
    && (forall k :: 0 <= k < i ==> IsSpace(s[k]))
    && (forall k :: i + |r| <= k < |s| ==> IsSpace(s[k]))
  }

  /** Trimming both ends leaves a slice of the text with only white space outside it. */
  lemma TrimSlice(s: string, t: string, r: string)
    requires |t| <= |s| && t == s[|s| - |t|..]
    requires forall k :: 0 <= k < |s| - |t| ==> IsSpace(s[k])
    requires |r| <= |t| && r == t[..|r|]
    requires forall k :: |r| <= k < |t| ==> IsSpace(t[k])
    ensures TrimmedAt(s, r, |s| - |t|)
  {
    var i := |s| - |t|;
    PrefixOfSuffix(s, t, r, i);
    SpaceAfter(s, t, |r|, i);
  }

  /** A prefix of the suffix from i is the slice starting at i. */
  lemma PrefixOfSuffix(s: string, t: string, r: string, i: nat)
    requires i <= |s| && t == s[i..] && |r| <= |t| && r == t[..|r|]
    ensures r == s[i..i + |r|]
  {
  }

  /** White space after position n of the suffix from i is white space after i + n in the text. */
  lemma SpaceAfter(s: string, t: string, n: nat, i: nat)
    requires i <= |s| && t == s[i..] && n <= |t|
    requires forall k :: n <= k < |t| ==> IsSpace(t[k])
    ensures forall k :: i + n <= k < |s| ==> IsSpace(s[k])
  {
    forall k | i + n <= k < |s|
      ensures IsSpace(s[k])
    {
      assert s[k] == t[k - i];
    }
  }

  /** Trimming a trimmed text changes nothing. */
  lemma TrimIdempotent(s: string)
    ensures Trim(Trim(s)) == Trim(s)
  {
    var r := Trim(s);
    if r != [] {
      assert TrimStart(r) == r;
      assert TrimEnd(r) == r;
    }
  }

  /** The text is added only when something other than white space was typed and there is a user id. */
  predicate CanAdd(text: string, userId: Option<string>)
  {
    Trim(text) != [] && userId.Some? && userId.value != ""
  }

  /** The guard lets a text through exactly when one of its characters is not white space. */
  lemma AddGuard(text: string, userId: Option<string>)
    ensures CanAdd(text, userId) <==>
      (exists i :: 0 <= i < |text| && !IsSpace(text[i])) && userId.Some? && userId.value != ""
  {
  }

  /** The create response is kept only when it is a record with a non-empty id. */
  predicate Accepts(created: Option<Task>)
  {
    created.Some? && created.value.id != ""
  }

  /** `toggleTask(id, d)`: every task with that id gets `done = !d`; every other task is kept as it was. */
  function Toggled(tasks: seq<Task>, id: string, currentDone: bool): (r: seq<Task>)
    ensures |r| == |tasks|
    ensures forall i :: 0 <= i < |r| && tasks[i].id != id ==> r[i] == tasks[i]
    ensures forall i :: 0 <= i < |r| && tasks[i].id == id ==> r[i] == tasks[i].(done := !currentDone)
  {
    if tasks == [] then []
    else
      var x := tasks[0];
      var rest := Toggled(tasks[1..], id, currentDone);
      [if x.id == id then x.(done := !currentDone) else x] + rest
  }

  /** Repeating a toggle with the same current value changes nothing more. */
  lemma ToggleIdempotent(tasks: seq<Task>, id: string, currentDone: bool)
    ensures Toggled(Toggled(tasks, id, currentDone), id, currentDone) == Toggled(tasks, id, currentDone)
  {
    var once := Toggled(tasks, id, currentDone);
    var twice := Toggled(once, id, currentDone);
    forall i | 0 <= i < |tasks|
      ensures twice[i] == once[i]
    {
      assert once[i].id == tasks[i].id;
    }
  }

  /** `deleteTask(id)`: the tasks without that id. */
  function Without(tasks: seq<Task>, id: string): (r: seq<Task>)
    ensures |r| <= |tasks|
    ensures forall x :: x in r <==> x in tasks && x.id != id
  {
    if tasks == [] then []
    else if tasks[0].id == id then Without(tasks[1..], id)
    else [tasks[0]] + Without(tasks[1..], id)
  }

  /** Deleting keeps the other tasks in their order: it distributes over concatenation. */
  lemma {:induction false} WithoutAppend(a: seq<Task>, b: seq<Task>, id: string)
    ensures Without(a + b, id) == Without(a, id) + Without(b, id)
  {
    if a == [] {
      assert a + b == b;
    } else {
      assert (a + b)[0] == a[0] && (a + b)[1..] == a[1..] + b;
      WithoutAppend(a[1..], b, id);
    }
  }

  /** Deleting an id no task has changes nothing. */
  lemma {:induction false} WithoutAbsent(tasks: seq<Task>, id: string)
    requires forall i :: 0 <= i < |tasks| ==> tasks[i].id != id
    ensures Without(tasks, id) == tasks
  {
    if tasks != [] {
      WithoutAbsent(tasks[1..], id);
    }
  }

  /** The tasks with the id are all removed: as many as there were fewer. */
  lemma {:induction false} WithoutCount(tasks: seq<Task>, id: string)
    ensures |Without(tasks, id)| == |tasks| - Count(tasks, id)
  {
    if tasks != [] {
      WithoutCount(tasks[1..], id);
    }
  }

  /** The number of tasks with the id. */
  function Count(tasks: seq<Task>, id: string): nat
  {
    if tasks == [] then 0 else (if tasks[0].id == id then 1 else 0) + Count(tasks[1..], id)
  }

  class TaskPage {
    var tasks: seq<Task>
    var newTask: string
    var userId: Option<string>

    /** The page as it mounts: no tasks, an empty input, no user id yet. */
    constructor()
      ensures tasks == [] && newTask == "" && userId == None
    {
      tasks := [];
      newTask := "";
      userId := None;
    }

    /** The user id: the stored one when there is a non-empty one, otherwise a newly generated one. */
    method InitUser(stored: Option<string>, generated: string)
      requires generated != ""
      modifies this
      ensures userId == Some(if stored.Some? && stored.value != "" then stored.value else generated)
      ensures userId.value != ""
      ensures tasks == old(tasks) && newTask == old(newTask)
    {
      userId := Some(if stored.Some? && stored.value != "" then stored.value else generated);
    }

    /** Typing into the input. */
    method Type(text: string)
      modifies this
      ensures newTask == text && tasks == old(tasks) && userId == old(userId)
    {
      newTask := text;
    }

    /** A fetch result replaces the list only when it is an array. */
    method Load(data: Fetched)
      modifies this
      ensures tasks == if data.TaskArray? then data.items else old(tasks)
      ensures newTask == old(newTask) && userId == old(userId)
    {
      if data.TaskArray? {
        tasks := data.items;
      }
    }

    /**
     * `addTask`, with the server's answer `created`. Past the guard it sends
     * the user id and the trimmed text, clears the input, and puts an accepted
     * answer in front of the list; a blocked add sends nothing and changes
     * nothing.
     */
    method AddTask(created: Option<Task>) returns (request: Option<Payload>)
      modifies this
      ensures userId == old(userId)
      ensures !CanAdd(old(newTask), old(userId)) ==>
        request == None && tasks == old(tasks) && newTask == old(newTask)
      ensures CanAdd(old(newTask), old(userId)) ==>
        && request == Some(Payload(old(userId).value, Trim(old(newTask))))
        && newTask == ""
        && tasks == (if Accepts(created) then [created.value] + old(tasks) else old(tasks))
    {
      if !CanAdd(newTask, userId) {
        return None;
      }
      request := Some(Payload(userId.value, Trim(newTask)));
      newTask := "";
      if Accepts(created) {
        tasks := [created.value] + tasks;
      }
    }

    /** `toggleTask(id, currentDone)` on the list. */
    method Toggle(id: string, currentDone: bool)
      modifies this
      ensures tasks == Toggled(old(tasks), id, currentDone)
      ensures newTask == old(newTask) && userId == old(userId)
    {
      tasks := Toggled(tasks, id, currentDone);
    }

    /** `deleteTask(id)` on the list. */
    method Delete(id: string)
      modifies this
      ensures tasks == Without(old(tasks), id)
      ensures newTask == old(newTask) && userId == old(userId)
    {
      tasks := Without(tasks, id);
    }
  }
}
