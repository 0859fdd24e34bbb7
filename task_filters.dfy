/** The filter bar of src/components/TaskFilters.tsx: single-field updates, the reset, and the
    count of applied filters shown on the badge (which also decides whether "Clear" is offered). */
module TaskFilters {
  import opened Seqs
  import opened Tasks
  import opened Text
  import opened UseTaskFilters

  /** `keyof TaskFilters`. */
  datatype FilterField = Search | Priority | Status | Category | DueDateSort

  function Get(f: Criteria, key: FilterField): string {
    match key
    case Search => f.search
    case Priority => f.priority
    case Status => f.status
    case Category => f.category
    case DueDateSort => f.dueDateSort
  }

  /** `updateFilter`: a copy of the criteria with one field set to the new value. */
  function UpdateFilter(f: Criteria, key: FilterField, value: string): (r: Criteria)
    ensures Get(r, key) == value
    ensures forall other :: other != key ==> Get(r, other) == Get(f, other)
  {
    match key
    case Search => f.(search := value)
    case Priority => f.(priority := value)
    case Status => f.(status := value)
    case Category => f.(category := value)
    case DueDateSort => f.(dueDateSort := value)
  }

  /** `clearFilters`: the criteria the task page starts with. */
  function ClearFilters(): (r: Criteria)
    ensures r.search == "" && r.priority == "all" && r.status == "all" && r.category == "all"
    ensures r.dueDateSort == "none"
    ensures r == InitialCriteria
  {
    Criteria("", "all", "all", "all", "none")
  }

  /** `Object.values(filters)`, in the order the fields are declared. */
  function Values(f: Criteria): seq<string> {
    [f.search, f.priority, f.status, f.category, f.dueDateSort]
  }

  predicate IsActiveValue(v: string) {
    v != "" && v != "all" && v != "none"
  }

  /** `activeFilterCount`: the number of fields whose value is none of '', 'all', 'none'. */
  function ActiveFilterCount(f: Criteria): (r: nat)
    ensures r <= 5
  {
    FilterLength(Values(f), IsActiveValue);
    |Filter(Values(f), IsActiveValue)|
  }

  function ActiveBit(v: string): nat {
    if IsActiveValue(v) then 1 else 0
  }

  lemma FilterOne(v: string)
    ensures |Filter([v], IsActiveValue)| == ActiveBit(v)
  {
    assert [v][..0] == [];
  }

  /** The count adds one for each field holding an active value. */
  lemma ActiveFilterCountByField(f: Criteria)
    ensures ActiveFilterCount(f) == ActiveBit(f.search) + ActiveBit(f.priority) + ActiveBit(f.status)
                                    + ActiveBit(f.category) + ActiveBit(f.dueDateSort)
  {
    var a, b, c, d, e := [f.search], [f.priority], [f.status], [f.category], [f.dueDateSort];
    assert Values(f) == a + b + c + d + e;
    FilterAppend(a + b + c + d, e, IsActiveValue);
    FilterAppend(a + b + c, d, IsActiveValue);
    FilterAppend(a + b, c, IsActiveValue);
    FilterAppend(a, b, IsActiveValue);
    FilterOne(f.search);
    FilterOne(f.priority);
    FilterOne(f.status);
    FilterOne(f.category);
    FilterOne(f.dueDateSort);
  }

  /** The reset criteria count no filter. */
  lemma ClearedCountsNone()
    ensures ActiveFilterCount(ClearFilters()) == 0
  {
    ActiveFilterCountByField(ClearFilters());
  }

  /** Setting any field to '', 'all' or 'none' never raises the count. */
  lemma NeutralValueDoesNotCount(f: Criteria, key: FilterField, value: string)
    requires !IsActiveValue(value)
    ensures ActiveFilterCount(UpdateFilter(f, key, value)) <= ActiveFilterCount(f)
  {
    ActiveFilterCountByField(f);
    ActiveFilterCountByField(UpdateFilter(f, key, value));
  }

  /** Setting a field to an active value counts it, whatever it held before. */
  lemma ActiveValueCounts(f: Criteria, key: FilterField, value: string)
    requires IsActiveValue(value)
    ensures ActiveFilterCount(UpdateFilter(f, key, value)) >= 1
    ensures ActiveFilterCount(UpdateFilter(f, key, value)) >= ActiveFilterCount(f)
  {
    ActiveFilterCountByField(f);
    ActiveFilterCountByField(UpdateFilter(f, key, value));
  }

  // ---------------------------------------------------------------------------------------
  // The count measured against each field's own reset value

  /** A search for the text "all" is not counted, yet it narrows the list: a task titled "x"
      is dropped while the badge shows no filter and "Clear" is hidden. */
  lemma SearchForAllIsUncounted(t: Task, now: Timestamp)
    requires t.title == "x" && t.description.None? && t.category.None?
    ensures ActiveFilterCount(UpdateFilter(ClearFilters(), Search, "all")) == 0
    ensures Narrowed([t], UpdateFilter(ClearFilters(), Search, "all"), now) == []
  {
    var f := UpdateFilter(ClearFilters(), Search, "all");
    ActiveFilterCountByField(f);
    assert Lower("all") == "all";
    assert Lower(t.title) == "x";
    assert f.search == "all";
    assert !Includes("x", "all") by {
      assert "x"[1..] == "";
      assert !Includes("", "all");
    }
    assert !PassesSearch(t, f.search);
    assert !StageFn(f, now, 4)(t);
    assert [t][..0] == [];
    assert Filter([t], StageFn(f, now, 4)) == Filter([], StageFn(f, now, 4));
  }

  function ChangedBit(f: Criteria, key: FilterField): nat {
    if Get(f, key) != Get(ClearFilters(), key) then 1 else 0
  }

  /** The number of fields that differ from what `clearFilters` sets them to. */
  function AppliedFilterCount(f: Criteria): (r: nat)
    ensures r <= 5
    ensures r == 0 <==> f == ClearFilters()
  {
    ChangedBit(f, Search) + ChangedBit(f, Priority) + ChangedBit(f, Status)
    + ChangedBit(f, Category) + ChangedBit(f, DueDateSort)
  }

  /** With no applied filter, the pipeline keeps every task. */
  lemma NoAppliedFilterKeepsAll(tasks: seq<Task>, f: Criteria, now: Timestamp)
    requires AppliedFilterCount(f) == 0
    ensures Narrowed(tasks, f, now) == tasks
  {
    InitialCriteriaKeepAll(tasks, now);
  }

  /** Where the two counts agree: a field holding its own reset value is neutral in both, and a
      field holding a value that is none of '', 'all', 'none' is counted by both. */
  lemma CountsAgreeOnOrdinaryValues(f: Criteria)
    requires f.search != "all" && f.search != "none"
    requires f.priority != "" && f.priority != "none"
    requires f.status != "" && f.status != "none"
    requires f.category != "" && f.category != "none"
    requires f.dueDateSort != "" && f.dueDateSort != "all"
    ensures ActiveFilterCount(f) == AppliedFilterCount(f)
  {
    ActiveFilterCountByField(f);
  }
}
