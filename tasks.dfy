/** Task records and the list operations the controller builds its
    mutators from: `Array.prototype.filter`, `Array.prototype.find`, and the
    in-place update of the record `find` returns. */
module Tasks {
  import opened Wrappers
  import opened Text

  /** `Date.now()` at creation: a number of milliseconds. Two tasks added in
      the same millisecond get the same id, so nothing here assumes ids are
      unique. */
  type Id = int

  /** `new Date().toISOString()` at creation; never inspected. */
  type Timestamp = string

  datatype Task = Task(id: Id, text: string, completed: bool, createdAt: Timestamp)

  /** The text a task is meant to carry: not empty, and without whitespace
      at either end, which by `TrimNoEdge` is text that trimming leaves as it
      is. */
  predicate IsTaskText(s: string) {
    s != [] && NoEdgeWhitespace(s)
  }

  /** Every task of the list carries task text. */
  predicate AllTaskText(ts: seq<Task>) {
    forall k :: 0 <= k < |ts| ==> IsTaskText(ts[k].text)
  }

  /** Input that does not trim to nothing trims to task text. */
  lemma TrimmedIsTaskText(s: string)
    requires Trim(s) != []
    ensures IsTaskText(Trim(s))
  {
    TrimCutsWhitespace(s);
  }

  predicate IsActive(t: Task) { !t.completed }

  predicate IsCompleted(t: Task) { t.completed }

  // ---------------------------------------------------------------------
  // Array.prototype.filter

  /** The elements `keep` accepts, in their order. */
  function Filter<T(!new)>(s: seq<T>, keep: T -> bool): (r: seq<T>)
    ensures |r| <= |s|
    ensures forall x :: x in r <==> x in s && keep(x)
  {
    if s == [] then []
    else (if keep(s[0]) then [s[0]] else []) + Filter(s[1..], keep)
  }

  /** `a` is `b` with some elements left out, the rest in their order. */
  predicate IsSubsequence<T(==)>(a: seq<T>, b: seq<T>)
    decreases |b|
  {
    if a == [] then true
    else if b == [] then false
    else (a[0] == b[0] && IsSubsequence(a[1..], b[1..])) || IsSubsequence(a, b[1..])
  }

  lemma {:induction false} SubsequenceReflexive<T>(s: seq<T>)
    ensures IsSubsequence(s, s)
  {
    if s != [] {
      SubsequenceReflexive(s[1..]);
    }
  }

  lemma {:induction false} FilterIsSubsequence<T(!new)>(s: seq<T>, keep: T -> bool)
    ensures IsSubsequence(Filter(s, keep), s)
  {
    if s != [] {
      FilterIsSubsequence(s[1..], keep);
      var rest := Filter(s[1..], keep);
      assert Filter(s, keep) == (if keep(s[0]) then [s[0]] else []) + rest;
      if keep(s[0]) {
        var r := Filter(s, keep);
        assert r[0] == s[0] && r[1..] == rest;
        assert IsSubsequence(r[1..], s[1..]);
      } else {
        assert Filter(s, keep) == rest;
      }
    }
  }

  /** Filtering with a predicate every element meets returns the list itself. */
  lemma {:induction false} FilterKeepsAll<T(!new)>(s: seq<T>, keep: T -> bool)
    requires forall x :: x in s ==> keep(x)
    ensures Filter(s, keep) == s
  {
    if s != [] {
      FilterKeepsAll(s[1..], keep);
      assert s == [s[0]] + s[1..];
    }
  }

  /** Two complementary filters split a list: every element lands in exactly
      one of them. */
  lemma {:induction false} FilterSplit<T(!new)>(s: seq<T>, keep: T -> bool, drop: T -> bool)
    requires forall x :: drop(x) == !keep(x)
    ensures multiset(Filter(s, keep)) + multiset(Filter(s, drop)) == multiset(s)
    ensures |Filter(s, keep)| + |Filter(s, drop)| == |s|
  {
    if s != [] {
      FilterSplit(s[1..], keep, drop);
      assert s == [s[0]] + s[1..];
    }
  }

  /** Filtering twice with the same predicate is filtering once. */
  lemma {:induction false} FilterIdempotent<T(!new)>(s: seq<T>, keep: T -> bool)
    ensures Filter(Filter(s, keep), keep) == Filter(s, keep)
  {
    FilterKeepsAll(Filter(s, keep), keep);
  }

  /** Replacing one element changes the length of a filtered list by what
      the old and the new element contribute. */
  lemma {:induction false} FilterUpdateLength<T(!new)>(s: seq<T>, k: nat, y: T, keep: T -> bool)
    requires k < |s|
    ensures |Filter(s[k := y], keep)|
         == |Filter(s, keep)| - (if keep(s[k]) then 1 else 0) + (if keep(y) then 1 else 0)
  {
    if k == 0 {
      assert s[k := y][1..] == s[1..];
    } else {
      FilterUpdateLength(s[1..], k - 1, y, keep);
      assert s[k := y][1..] == s[1..][k - 1 := y];
    }
  }

  /** Filtering with a predicate no element meets returns the empty list. */
  lemma {:induction false} FilterKeepsNone<T(!new)>(s: seq<T>, keep: T -> bool)
    requires forall x :: x in s ==> !keep(x)
    ensures Filter(s, keep) == []
  {
    if s != [] {
      FilterKeepsNone(s[1..], keep);
    }
  }

  /** A filtered list keeps only tasks of the list, so their texts too. */
  lemma FilterKeepsTaskText(ts: seq<Task>, keep: Task -> bool)
    requires AllTaskText(ts)
    ensures AllTaskText(Filter(ts, keep))
  {
    var r := Filter(ts, keep);
    forall k | 0 <= k < |r| ensures IsTaskText(r[k].text) {
      assert r[k] in ts;
    }
  }

  /** Replacing one task by another with task text keeps every text a task
      text. */
  lemma ReplaceKeepsTaskText(ts: seq<Task>, k: nat, t: Task)
    requires AllTaskText(ts) && k < |ts| && IsTaskText(t.text)
    ensures AllTaskText(ts[k := t])
  {
  }

  // ---------------------------------------------------------------------
  // the views over the list

  /** The active tasks, in list order. */
  function Active(ts: seq<Task>): seq<Task> {
    Filter(ts, IsActive)
  }

  /** The completed tasks, in list order. */
  function Completed(ts: seq<Task>): seq<Task> {
    Filter(ts, IsCompleted)
  }

  /** The active and the completed tasks partition the list, each in list
      order. */
  lemma ActiveCompletedPartition(ts: seq<Task>)
    ensures multiset(Active(ts)) + multiset(Completed(ts)) == multiset(ts)
    ensures |Active(ts)| + |Completed(ts)| == |ts|
    ensures IsSubsequence(Active(ts), ts) && IsSubsequence(Completed(ts), ts)
    ensures forall t :: t in Active(ts) <==> t in ts && !t.completed
    ensures forall t :: t in Completed(ts) <==> t in ts && t.completed
  {
    FilterSplit(ts, IsActive, IsCompleted);
    FilterIsSubsequence(ts, IsActive);
    FilterIsSubsequence(ts, IsCompleted);
  }

  /** Clearing the completed tasks leaves no completed task, and clearing
      again would keep every task. */
  lemma ClearedHasNoCompleted(ts: seq<Task>)
    ensures Completed(Active(ts)) == []
    ensures Active(Active(ts)) == Active(ts)
  {
    ActiveCompletedPartition(ts);
    FilterKeepsNone(Active(ts), IsCompleted);
    FilterIdempotent(ts, IsActive);
  }

  // ---------------------------------------------------------------------
  // deleting by id

  /** The tasks whose id differs from `id`, in list order. */
  function WithoutId(ts: seq<Task>, id: Id): seq<Task> {
    Filter(ts, (t: Task) => t.id != id)
  }

  /** The tasks whose id is `id`, in list order. */
  function WithId(ts: seq<Task>, id: Id): seq<Task> {
    Filter(ts, (t: Task) => t.id == id)
  }

  /** Deleting by id removes every task with that id and keeps every other
      task, in order; the removed tasks are exactly those carrying the id. */
  lemma DeleteRemovesExactly(ts: seq<Task>, id: Id)
    ensures forall t :: t in WithoutId(ts, id) <==> t in ts && t.id != id
    ensures IsSubsequence(WithoutId(ts, id), ts)
    ensures multiset(WithoutId(ts, id)) + multiset(WithId(ts, id)) == multiset(ts)
    ensures forall t :: t in WithId(ts, id) ==> t.id == id
  {
    FilterIsSubsequence(ts, (t: Task) => t.id != id);
    FilterSplit(ts, (t: Task) => t.id != id, (t: Task) => t.id == id);
  }

  /** Deleting an id no task carries changes nothing. */
  lemma DeleteAbsentIsNoOp(ts: seq<Task>, id: Id)
    requires forall t :: t in ts ==> t.id != id
    ensures WithoutId(ts, id) == ts
  {
    FilterKeepsAll(ts, (t: Task) => t.id != id);
  }

  // ---------------------------------------------------------------------
  // find, and updating the record it finds

  /** Position `k` holds the first task whose id is `id`. */
  predicate IsFirstMatch(ts: seq<Task>, id: Id, k: int) {
    0 <= k < |ts| && ts[k].id == id && forall j :: 0 <= j < k ==> ts[j].id != id
  }

  predicate HasId(ts: seq<Task>, id: Id) {
    exists k :: 0 <= k < |ts| && ts[k].id == id
  }

  /** Looking up the first task with id `id`, as the position of the record
      `find` returns (`None` for `undefined`). */
  function FindIndex(ts: seq<Task>, id: Id): (r: Option<nat>)
    ensures r.Some? ==> IsFirstMatch(ts, id, r.value)
    ensures r.None? <==> !HasId(ts, id)
  {
    if ts == [] then None
    else if ts[0].id == id then Some(0)
    else match FindIndex(ts[1..], id)
      case None => None
      case Some(k) => Some(k + 1)
  }

  /** Applies `f` to the first task with id `id`, if there is one; every other
      position keeps its task. */
  function UpdateFirst(ts: seq<Task>, id: Id, f: Task -> Task): (r: seq<Task>)
    ensures |r| == |ts|
    ensures forall k :: 0 <= k < |ts| ==>
      r[k] == if IsFirstMatch(ts, id, k) then f(ts[k]) else ts[k]
  {
    match FindIndex(ts, id)
    case None => ts
    case Some(k) => ts[k := f(ts[k])]
  }

  /** The record with its completion flag inverted. */
  function Flip(t: Task): Task {
    t.(completed := !t.completed)
  }

  /** Replaces a record's text. */
  function WithText(text: string): Task -> Task {
    (t: Task) => t.(text := text)
  }

  /** The effect of toggling: the first task with id `id`, and only it, has
      its `completed` flag flipped; no id, text or timestamp changes. */
  function Toggled(ts: seq<Task>, id: Id): (r: seq<Task>)
    ensures |r| == |ts|
    ensures forall k :: 0 <= k < |ts| ==>
      r[k].id == ts[k].id && r[k].text == ts[k].text && r[k].createdAt == ts[k].createdAt
    ensures forall k :: 0 <= k < |ts| ==>
      (r[k].completed != ts[k].completed <==> IsFirstMatch(ts, id, k))
  {
    UpdateFirst(ts, id, Flip)
  }

  /** The effect of committing an edit: the first task with id `id`, and only
      it, gets the text `text`; its id, flag and timestamp stay. */
  function Retexted(ts: seq<Task>, id: Id, text: string): (r: seq<Task>)
    ensures |r| == |ts|
    ensures forall k :: 0 <= k < |ts| ==>
      r[k].id == ts[k].id && r[k].completed == ts[k].completed && r[k].createdAt == ts[k].createdAt
    ensures forall k :: 0 <= k < |ts| ==>
      r[k].text == if IsFirstMatch(ts, id, k) then text else ts[k].text
  {
    UpdateFirst(ts, id, WithText(text))
  }

  /** Committing an edit writes the text into the record `find` returns. */
  lemma RetextedAt(ts: seq<Task>, id: Id, k: nat, text: string)
    requires IsFirstMatch(ts, id, k)
    ensures Retexted(ts, id, text) == ts[k := ts[k].(text := text)]
  {
  }

  /** Which position is the first match depends on the ids alone. */
  lemma FirstMatchByIds(ts: seq<Task>, us: seq<Task>, id: Id)
    requires |ts| == |us| && forall k :: 0 <= k < |ts| ==> ts[k].id == us[k].id
    ensures forall k :: IsFirstMatch(ts, id, k) <==> IsFirstMatch(us, id, k)
  {
  }

  /** Updating an id no task carries changes nothing. */
  lemma UpdateAbsentIsNoOp(ts: seq<Task>, id: Id, f: Task -> Task)
    requires !HasId(ts, id)
    ensures UpdateFirst(ts, id, f) == ts
  {
    assert forall k :: !IsFirstMatch(ts, id, k);
  }

  /** Toggling the same id twice restores the list. */
  lemma ToggleInvolutive(ts: seq<Task>, id: Id)
    ensures Toggled(Toggled(ts, id), id) == ts
  {
    var once := Toggled(ts, id);
    FirstMatchByIds(ts, once, id);
  }

  /** Committing the same text twice, as Enter followed by blur does, leaves
      the list as one commit leaves it. */
  lemma RetextedIdempotent(ts: seq<Task>, id: Id, text: string)
    ensures Retexted(Retexted(ts, id, text), id, text) == Retexted(ts, id, text)
  {
    var once := Retexted(ts, id, text);
    FirstMatchByIds(ts, once, id);
  }
}
