/** What `render` derives from the state: the filtered list, the three
    counters and the placeholder shown when the filtered list is empty. */
module View {
  import opened Wrappers
  import opened Tasks

  /** The filter names the filter buttons carry in `data-filter`. */
  const AllFilter: string := "all"
  const ActiveFilter: string := "active"
  const CompletedFilter: string := "completed"

  /** Whether task `t` is listed under filter `filter`: any name other than
      "active" and "completed" lists every task. */
  predicate Shows(filter: string, t: Task) {
    if filter == ActiveFilter then !t.completed
    else if filter == CompletedFilter then t.completed
    else true
  }

  /** `getFilteredTodos`: the tasks the filter shows, in list order. */
  function Visible(ts: seq<Task>, filter: string): (r: seq<Task>)
    ensures IsSubsequence(r, ts)
    ensures forall t :: t in r <==> t in ts && Shows(filter, t)
  {
    ActiveCompletedPartition(ts);
    SubsequenceReflexive(ts);
    if filter == ActiveFilter then Active(ts)
    else if filter == CompletedFilter then Completed(ts)
    else ts
  }

  /** Every filter name other than "active" and "completed" shows the list
      itself. */
  lemma VisibleOtherIsAll(ts: seq<Task>, other: string)
    requires other != ActiveFilter && other != CompletedFilter
    ensures Visible(ts, other) == ts
  {
  }

  /** The "active" and "completed" views split the list: each task of it is
      in exactly one of them, and together they cover the ids of the whole
      list. */
  lemma VisiblePartition(ts: seq<Task>)
    ensures multiset(Visible(ts, ActiveFilter)) + multiset(Visible(ts, CompletedFilter)) == multiset(ts)
    ensures (set t | t in Visible(ts, ActiveFilter) :: t.id) + (set t | t in Visible(ts, CompletedFilter) :: t.id)
         == (set t | t in ts :: t.id)
  {
    ActiveCompletedPartition(ts);
  }

  /** The counters `updateStats` shows. */
  datatype Counts = Counts(total: nat, active: nat, completed: nat)

  /** `updateStats`: all three counters are taken over the whole list, never
      the filtered one, and the active and completed counts add up to the
      total. */
  function CountsOf(ts: seq<Task>): (c: Counts)
    ensures c.total == |ts| == c.active + c.completed
    ensures c.active == |Visible(ts, ActiveFilter)| && c.completed == |Visible(ts, CompletedFilter)|
  {
    ActiveCompletedPartition(ts);
    Counts(|ts|, |Active(ts)|, |Completed(ts)|)
  }

  /** Adding an active task raises the total and the active count by one. */
  lemma CountsAfterAdd(ts: seq<Task>, t: Task)
    requires !t.completed
    ensures CountsOf([t] + ts) == Counts(|ts| + 1, CountsOf(ts).active + 1, CountsOf(ts).completed)
  {
    assert ([t] + ts)[1..] == ts;
  }

  /** After clearing, the completed count is zero and the active count is
      what it was. */
  lemma CountsAfterClear(ts: seq<Task>)
    ensures CountsOf(Active(ts)) == Counts(CountsOf(ts).active, CountsOf(ts).active, 0)
  {
    ClearedHasNoCompleted(ts);
  }

  /** Deleting lowers the total by the number of tasks that carried the id. */
  lemma CountsAfterDelete(ts: seq<Task>, id: Id)
    ensures CountsOf(WithoutId(ts, id)).total == |ts| - |WithId(ts, id)|
  {
    FilterSplit(ts, (t: Task) => t.id != id, (t: Task) => t.id == id);
  }

  /** Toggling a present id moves one task between the active and completed
      counts; the total stays. */
  lemma CountsAfterToggle(ts: seq<Task>, id: Id, k: nat)
    requires IsFirstMatch(ts, id, k)
    ensures CountsOf(Toggled(ts, id)).total == |ts|
    ensures !ts[k].completed ==>
      CountsOf(Toggled(ts, id)).active + 1 == CountsOf(ts).active
      && CountsOf(Toggled(ts, id)).completed == CountsOf(ts).completed + 1
    ensures ts[k].completed ==>
      CountsOf(Toggled(ts, id)).active == CountsOf(ts).active + 1
      && CountsOf(Toggled(ts, id)).completed + 1 == CountsOf(ts).completed
  {
    assert Toggled(ts, id) == ts[k := Flip(ts[k])];
    FilterUpdateLength(ts, k, Flip(ts[k]), IsActive);
    FilterUpdateLength(ts, k, Flip(ts[k]), IsCompleted);
  }

  /** The placeholder text of the empty list, chosen by filter name alone. */
  function EmptyMessage(filter: string): string {
    if filter == ActiveFilter then "未完了のタスクはありません"
    else if filter == CompletedFilter then "完了済みのタスクはありません"
    else "タスクを追加してください"
  }

  /** The placeholder filter names other than "active" and "completed" share
      with "all", and the three placeholders are different texts. */
  lemma EmptyMessageCases(filter: string)
    ensures filter != ActiveFilter && filter != CompletedFilter ==> EmptyMessage(filter) == EmptyMessage(AllFilter)
    ensures EmptyMessage(ActiveFilter) != EmptyMessage(CompletedFilter)
    ensures EmptyMessage(ActiveFilter) != EmptyMessage(AllFilter)
    ensures EmptyMessage(CompletedFilter) != EmptyMessage(AllFilter)
  {
    assert EmptyMessage(ActiveFilter)[0] != EmptyMessage(CompletedFilter)[0];
    assert EmptyMessage(ActiveFilter)[0] != EmptyMessage(AllFilter)[0];
    assert EmptyMessage(CompletedFilter)[0] != EmptyMessage(AllFilter)[0];
  }

  /** The placeholder `render` shows in place of the list: present exactly
      when the filter shows no task, and then the filter's own message. */
  function EmptyState(ts: seq<Task>, filter: string): (r: Option<string>)
    ensures r.Some? <==> forall t :: t in ts ==> !Shows(filter, t)
    ensures r.Some? ==> r.value == EmptyMessage(filter)
  {
    var visible := Visible(ts, filter);
    assert visible != [] ==> visible[0] in visible;
    if |visible| == 0 then Some(EmptyMessage(filter)) else None
  }
}
