/**
 * The schedule store (`DataManager`): a map from member name to that
 * member's schedule list and colour. Every operation answers success or
 * failure; a failure leaves the store exactly as it was. The file write of
 * `save_data` is abstracted to a counter of writes.
 */
module DataManager {
  import opened Wrappers
  import opened SlotOrder
  import ColorManager

  /**
   * One member's record: `{'schedules': [...], 'color': ...}`. Every colour
   * the store holds is a palette colour (see `LoadData`), so it is kept as
   * a `ColorManager.Color`; `ColorManager.Name` gives the stored string.
   */
  datatype MemberData = MemberData(schedules: seq<Slot>, color: ColorManager.Color)

  /**
   * The store: `family_members`, the colour allocator it owns, and the
   * number of `save_data` calls made so far.
   */
  datatype Store = Store(members: map<string, MemberData>, colors: ColorManager.Allocator, saves: nat)

  /** Why an operation answered `False`. */
  datatype Failure =
    | DuplicateMember    // the name is already registered
    | MemberNotFound     // no member of that name
    | ScheduleNotFound   // neither the index nor the value matched (`ValueError`)
    | IndexFault         // the index is below `-len`, so `schedules[idx]` raised `IndexError`

  /** The boolean of the `(bool, message)` pair, with the failure's cause. */
  datatype Outcome = Done | Failed(reason: Failure)

  /** The store after the call and what the call answered. */
  datatype Reply = Reply(store: Store, outcome: Outcome)

  /** `save_data`: one more write of the current state. */
  function Save(st: Store): (r: Store)
    ensures r.members == st.members && r.colors == st.colors
    ensures r.saves == st.saves + 1
  {
    st.(saves := st.saves + 1)
  }

  /** Two member maps agree on every name other than `name`. */
  ghost predicate SameExcept(m1: map<string, MemberData>, m2: map<string, MemberData>, name: string)
  {
    && (forall n :: n != name ==> (n in m1 <==> n in m2))
    && (forall n :: n != name && n in m1 ==> n in m2 && m1[n] == m2[n])
  }

  /** The store with `name`'s schedule list replaced by `s`, colour kept. */
  function WithSchedules(st: Store, name: string, s: seq<Slot>): Store
    requires name in st.members
  {
    st.(members := st.members[name := st.members[name].(schedules := s)])
  }

  /** The member's schedule list after a successful call. */
  function SchedulesOf(st: Store, name: string): seq<Slot>
  {
    if name in st.members then st.members[name].schedules else []
  }

  // ---------------------------------------------------------------------
  // Members
  // ---------------------------------------------------------------------

  /**
   * `add_member`: a duplicate name is refused; otherwise the member is added
   * with no schedules and the allocator's next colour, and the store is saved.
   */
  function AddMember(st: Store, name: string): (r: Reply)
    ensures name in st.members <==> r.outcome == Failed(DuplicateMember)
    ensures name in st.members ==> r.store == st
    ensures name !in st.members ==>
              && r.outcome == Done
              && r.store.members.Keys == st.members.Keys + {name}
              && r.store.members[name] == MemberData([], ColorManager.ChartColors[st.colors.index])
              && SameExcept(st.members, r.store.members, name)
              && r.store.colors == ColorManager.NextColor(st.colors).1
              && r.store.saves == st.saves + 1
  {
    if name in st.members then Reply(st, Failed(DuplicateMember))
    else
      var (color, colors') := ColorManager.NextColor(st.colors);
      Reply(Save(Store(st.members[name := MemberData([], color)], colors', st.saves)), Done)
  }

  /**
   * `delete_member`: an unknown name is refused; otherwise the member and
   * all of its schedules disappear and the store is saved.
   */
  function DeleteMember(st: Store, name: string): (r: Reply)
    ensures name !in st.members <==> r.outcome == Failed(MemberNotFound)
    ensures name !in st.members ==> r.store == st
    ensures name in st.members ==>
              && r.outcome == Done
              && r.store.members.Keys == st.members.Keys - {name}
              && SameExcept(st.members, r.store.members, name)
              && r.store.colors == st.colors
              && r.store.saves == st.saves + 1
  {
    if name !in st.members then Reply(st, Failed(MemberNotFound))
    else Reply(Save(st.(members := st.members - {name})), Done)
  }

  // ---------------------------------------------------------------------
  // Whole-list schedule operations
  // ---------------------------------------------------------------------

  /**
   * `add_schedule`: an unknown member is refused. Otherwise `(start, end)`
   * joins the list, the list is re-sorted and the store is saved. The pair
   * is not validated.
   */
  function AddSchedule(st: Store, name: string, start: int, end: int): (r: Reply)
    ensures name !in st.members <==> r.outcome == Failed(MemberNotFound)
    ensures name !in st.members ==> r.store == st
    ensures name in st.members ==>
              var before := st.members[name].schedules;
              var after := SchedulesOf(r.store, name);
              && r.outcome == Done
              && name in r.store.members
              && Sorted(after)
              && multiset(after) == multiset(before) + multiset{(start, end)}
              && |after| == |before| + 1
              && r.store.members[name].color == st.members[name].color
              && SameExcept(st.members, r.store.members, name)
              && r.store.colors == st.colors
              && r.store.saves == st.saves + 1
  {
    if name !in st.members then Reply(st, Failed(MemberNotFound))
    else
      var s := st.members[name].schedules;
      Reply(Save(WithSchedules(st, name, Sort(s + [(start, end)]))), Done)
  }

  /**
   * `clear_member_schedules`: an unknown member is refused; otherwise the
   * member keeps its colour, loses every schedule, and the store is saved.
   */
  function ClearMemberSchedules(st: Store, name: string): (r: Reply)
    ensures name !in st.members <==> r.outcome == Failed(MemberNotFound)
    ensures name !in st.members ==> r.store == st
    ensures name in st.members ==>
              && r.outcome == Done
              && name in r.store.members
              && r.store.members[name] == MemberData([], st.members[name].color)
              && SameExcept(st.members, r.store.members, name)
              && r.store.colors == st.colors
              && r.store.saves == st.saves + 1
  {
    if name !in st.members then Reply(st, Failed(MemberNotFound))
    else Reply(Save(WithSchedules(st, name, [])), Done)
  }

  // ---------------------------------------------------------------------
  // Matching a single schedule: by index first, then by value
  // ---------------------------------------------------------------------

  /** The position Python's `s[idx]` reads, for `-n <= idx < n`. */
  function Wrap(idx: int, n: nat): (p: nat)
    requires -(n as int) <= idx < n
    ensures p < n
    ensures idx >= 0 ==> p == idx
    ensures idx < 0 ==> p + (-idx) == n
  {
    if idx >= 0 then idx else n + idx
  }

  /** The guard `idx < len(s) and s[idx] == target` holds without raising. */
  predicate IdentityHit(s: seq<Slot>, target: Slot, idx: int)
  {
    -|s| <= idx < |s| && s[Wrap(idx, |s|)] == target
  }

  /** `s.index(x)`: the first position holding `x`, if any. */
  function FirstIndexOf(s: seq<Slot>, x: Slot): (r: Option<nat>)
    ensures r.None? <==> x !in s
    ensures r.Some? ==> r.value < |s| && s[r.value] == x && x !in s[..r.value]
  {
    if |s| == 0 then None
    else if s[0] == x then Some(0)
    else
      match FirstIndexOf(s[1..], x)
      case None => None
      case Some(i) =>
        assert s[..i + 1] == [s[0]] + s[1..][..i];
        Some(i + 1)
  }

  /** Which position an update or delete removes. */
  datatype Match = At(pos: nat) | Missing | BadIndex

  /**
   * The matching rule shared by `update_schedule` and `delete_schedule`:
   * the position `idx` when it holds `target` (Python's negative indices
   * included); otherwise the first occurrence of `target` (what
   * `list.remove` deletes); `Missing` when there is none; `BadIndex` when
   * `idx < -len`, where reading `s[idx]` raises `IndexError`.
   */
  function Locate(s: seq<Slot>, target: Slot, idx: int): (m: Match)
    ensures m.At? ==> m.pos < |s| && s[m.pos] == target
    ensures idx < -|s| <==> m == BadIndex
    ensures IdentityHit(s, target, idx) ==> m == At(Wrap(idx, |s|))
    ensures idx >= -|s| && !IdentityHit(s, target, idx) ==>
              && (target !in s <==> m == Missing)
              && (m.At? ==> target !in s[..m.pos])
  {
    if idx < |s| && idx < -|s| then BadIndex
    else if IdentityHit(s, target, idx) then At(Wrap(idx, |s|))
    else
      match FirstIndexOf(s, target)
      case None => Missing
      case Some(i) => At(i)
  }

  /** The list without position `p`. */
  function RemoveAt(s: seq<Slot>, p: nat): (r: seq<Slot>)
    requires p < |s|
    ensures |r| == |s| - 1
    ensures multiset(r) == multiset(s) - multiset{s[p]}
  {
    assert s == s[..p] + [s[p]] + s[p + 1..];
    s[..p] + s[p + 1..]
  }

  /** The failure a `Locate` result other than `At` reports. */
  function MatchFailure(m: Match): Failure
    requires !m.At?
  {
    if m.Missing? then ScheduleNotFound else IndexFault
  }

  /**
   * `update_schedule`: an unknown member is refused. Otherwise the matched
   * entry (see `Locate`) is removed, `newSlot` is appended, the list is
   * re-sorted and the store is saved. When nothing matches, nothing
   * changes and nothing is saved.
   */
  function UpdateSchedule(st: Store, name: string, oldSlot: Slot, idx: int, newSlot: Slot): (r: Reply)
    ensures name !in st.members <==> r.outcome == Failed(MemberNotFound)
    ensures r.outcome.Failed? ==> r.store == st
    ensures r.outcome == Done <==>
              name in st.members && oldSlot in st.members[name].schedules && idx >= -|st.members[name].schedules|
    ensures name in st.members && oldSlot !in st.members[name].schedules && idx >= -|st.members[name].schedules| ==>
              r.outcome == Failed(ScheduleNotFound)
    ensures r.outcome == Done ==>
              var before := st.members[name].schedules;
              var after := SchedulesOf(r.store, name);
              && name in r.store.members
              && Sorted(after)
              && |after| == |before|
              && multiset(after) == multiset(before) - multiset{oldSlot} + multiset{newSlot}
              && r.store.members[name].color == st.members[name].color
              && SameExcept(st.members, r.store.members, name)
              && r.store.colors == st.colors
              && r.store.saves == st.saves + 1
  {
    if name !in st.members then Reply(st, Failed(MemberNotFound))
    else
      var s := st.members[name].schedules;
      var m := Locate(s, oldSlot, idx);
      if !m.At? then Reply(st, Failed(MatchFailure(m)))
      else Reply(Save(WithSchedules(st, name, Sort(RemoveAt(s, m.pos) + [newSlot]))), Done)
  }

  /**
   * `delete_schedule`: the same matching as `UpdateSchedule`; the matched
   * entry is removed without re-sorting and the store is saved.
   */
  function DeleteSchedule(st: Store, name: string, target: Slot, idx: int): (r: Reply)
    ensures name !in st.members <==> r.outcome == Failed(MemberNotFound)
    ensures r.outcome.Failed? ==> r.store == st
    ensures r.outcome == Done <==>
              name in st.members && target in st.members[name].schedules && idx >= -|st.members[name].schedules|
    ensures name in st.members && target !in st.members[name].schedules && idx >= -|st.members[name].schedules| ==>
              r.outcome == Failed(ScheduleNotFound)
    ensures r.outcome == Done ==>
              var before := st.members[name].schedules;
              var after := SchedulesOf(r.store, name);
              var p := Locate(before, target, idx).pos;
              && name in r.store.members
              && after == before[..p] + before[p + 1..]
              && |after| == |before| - 1
              && multiset(after) == multiset(before) - multiset{target}
              && (Sorted(before) ==> Sorted(after))
              && r.store.members[name].color == st.members[name].color
              && SameExcept(st.members, r.store.members, name)
              && r.store.colors == st.colors
              && r.store.saves == st.saves + 1
  {
    if name !in st.members then Reply(st, Failed(MemberNotFound))
    else
      var s := st.members[name].schedules;
      var m := Locate(s, target, idx);
      if !m.At? then Reply(st, Failed(MatchFailure(m)))
      else
        assert Sorted(s) ==> Sorted(RemoveAt(s, m.pos)) by {
          if Sorted(s) { RemoveAtKeepsSorted(s, m.pos); }
        }
        Reply(Save(WithSchedules(st, name, RemoveAt(s, m.pos))), Done)
  }

  // ---------------------------------------------------------------------
  // Relations between operations
  // ---------------------------------------------------------------------

  /** Every member's list is sorted. */
  ghost predicate AllSorted(st: Store)
  {
    forall n :: n in st.members ==> Sorted(st.members[n].schedules)
  }

  /**
   * Once every list is sorted, every operation keeps it so: add and update
   * re-sort, clear empties, delete removes without disturbing the order.
   */
  lemma OperationsKeepListsSorted(st: Store, name: string, a: Slot, b: Slot, idx: int)
    requires AllSorted(st)
    ensures AllSorted(AddMember(st, name).store)
    ensures AllSorted(DeleteMember(st, name).store)
    ensures AllSorted(AddSchedule(st, name, a.0, a.1).store)
    ensures AllSorted(ClearMemberSchedules(st, name).store)
    ensures AllSorted(UpdateSchedule(st, name, a, idx, b).store)
    ensures AllSorted(DeleteSchedule(st, name, a, idx).store)
  {
    SortedElsewhere(st, AddMember(st, name).store, name);
    SortedElsewhere(st, DeleteMember(st, name).store, name);
    SortedElsewhere(st, AddSchedule(st, name, a.0, a.1).store, name);
    SortedElsewhere(st, ClearMemberSchedules(st, name).store, name);
    SortedElsewhere(st, UpdateSchedule(st, name, a, idx, b).store, name);
    SortedElsewhere(st, DeleteSchedule(st, name, a, idx).store, name);
  }

  /** A change confined to one member, whose list stays sorted, keeps every list sorted. */
  lemma SortedElsewhere(st: Store, st': Store, name: string)
    requires AllSorted(st)
    requires st' == st || SameExcept(st.members, st'.members, name)
    requires name in st'.members ==> Sorted(st'.members[name].schedules)
    ensures AllSorted(st')
  {
  }

  /** An update fails exactly when, and for the same reason as, the delete with the same matching. */
  lemma UpdateFailsLikeDelete(st: Store, name: string, oldSlot: Slot, idx: int, newSlot: Slot)
    ensures UpdateSchedule(st, name, oldSlot, idx, newSlot).outcome == DeleteSchedule(st, name, oldSlot, idx).outcome
  {
  }

  /**
   * A successful update has the same effect on the member map as deleting
   * the matched entry and then adding the new one, but saves once instead
   * of twice.
   */
  lemma UpdateIsDeleteThenAdd(st: Store, name: string, oldSlot: Slot, idx: int, newSlot: Slot)
    requires UpdateSchedule(st, name, oldSlot, idx, newSlot).outcome == Done
    ensures var viaDelete := AddSchedule(DeleteSchedule(st, name, oldSlot, idx).store, name, newSlot.0, newSlot.1).store;
            var direct := UpdateSchedule(st, name, oldSlot, idx, newSlot).store;
            && direct.members == viaDelete.members
            && direct.saves + 1 == viaDelete.saves
  {
    var s := st.members[name].schedules;
    var p := Locate(s, oldSlot, idx).pos;
    var target := Sort(RemoveAt(s, p) + [newSlot]);
    DeleteStore(st, name, oldSlot, idx);
    var deleted := Save(WithSchedules(st, name, RemoveAt(s, p)));
    assert AddSchedule(deleted, name, newSlot.0, newSlot.1).store == Save(WithSchedules(deleted, name, target));
    ReplaceTwice(st, name, RemoveAt(s, p), target);
  }

  /** The store a successful delete leaves, spelled out. */
  lemma DeleteStore(st: Store, name: string, target: Slot, idx: int)
    requires DeleteSchedule(st, name, target, idx).outcome == Done
    ensures var s := st.members[name].schedules;
            DeleteSchedule(st, name, target, idx).store
              == Save(WithSchedules(st, name, RemoveAt(s, Locate(s, target, idx).pos)))
  {
  }

  /** Replacing a member's list and saving, then replacing it again, is one replacement. */
  lemma ReplaceTwice(st: Store, name: string, s: seq<Slot>, t: seq<Slot>)
    requires name in st.members
    ensures WithSchedules(Save(WithSchedules(st, name, s)), name, t)
              == Save(WithSchedules(st, name, t))
  {
  }

  /** Adding a new member and deleting it again gives back the member map. */
  lemma DeleteMemberUndoesAdd(st: Store, name: string)
    requires name !in st.members
    ensures DeleteMember(AddMember(st, name).store, name).store.members == st.members
  {
    var added := AddMember(st, name).store;
    assert added.members - {name} == st.members;
  }

  /**
   * On a sorted list, deleting a schedule just added gives back exactly the
   * old list, whatever stale index is passed, as long as Python can index
   * the grown list with it; a more negative index raises and nothing changes.
   */
  lemma {:induction false} DeleteScheduleUndoesAdd(st: Store, name: string, start: int, end: int, idx: int)
    requires name in st.members
    requires Sorted(st.members[name].schedules)
    ensures var added := AddSchedule(st, name, start, end).store;
            var r := DeleteSchedule(added, name, (start, end), idx);
            idx >= -(|st.members[name].schedules| + 1) ==>
              && r.outcome == Done
              && SchedulesOf(r.store, name) == st.members[name].schedules
    ensures var added := AddSchedule(st, name, start, end).store;
            var r := DeleteSchedule(added, name, (start, end), idx);
            idx < -(|st.members[name].schedules| + 1) ==>
              r.outcome == Failed(IndexFault) && r.store == added
  {
    var before := st.members[name].schedules;
    var added := AddSchedule(st, name, start, end).store;
    assert (start, end) in multiset(SchedulesOf(added, name));
    var r := DeleteSchedule(added, name, (start, end), idx);
    if idx >= -(|before| + 1) {
      var after := SchedulesOf(r.store, name);
      assert multiset(after) == multiset(before);
      SortedUnique(after, before);
    } else {
      assert Locate(SchedulesOf(added, name), (start, end), idx) == BadIndex;
    }
  }

  /**
   * `update_schedule("Alice", (9, 17), 0, (10, 18))` on `[(9, 17)]` leaves
   * `[(10, 18)]` and writes once.
   */
  lemma UpdateExample(st: Store)
    requires "Alice" in st.members && st.members["Alice"].schedules == [(9, 17)]
    ensures var r := UpdateSchedule(st, "Alice", (9, 17), 0, (10, 18));
            && r.outcome == Done
            && SchedulesOf(r.store, "Alice") == [(10, 18)]
            && r.store.saves == st.saves + 1
  {
    var r := UpdateSchedule(st, "Alice", (9, 17), 0, (10, 18));
    var after := SchedulesOf(r.store, "Alice");
    assert multiset(after) == multiset{(10, 18)};
    assert after[0] in multiset(after);
  }

  /**
   * A stale index still succeeds through the value fallback, and a pair
   * that is not in the list fails without touching the store.
   */
  lemma StaleIndexFallsBackToValue(st: Store)
    requires "Alice" in st.members && st.members["Alice"].schedules == [(6, 8), (9, 17)]
    ensures UpdateSchedule(st, "Alice", (9, 17), 0, (10, 18)).outcome == Done
    ensures UpdateSchedule(st, "Alice", (1, 2), 1, (10, 18)) == Reply(st, Failed(ScheduleNotFound))
  {
    var s := st.members["Alice"].schedules;
    assert s[1] == (9, 17);
    assert (1, 2) !in s;
  }

  // ---------------------------------------------------------------------
  // Loading: the colour handling of `load_data`
  // ---------------------------------------------------------------------

  /** One already-parsed member entry of the data file; the colour string may be absent. */
  datatype Entry = Entry(name: string, schedules: seq<Slot>, color: Option<string>)

  /** The entries come from a JSON object, so their names are distinct. */
  predicate DistinctNames(es: seq<Entry>)
  {
    forall i, j :: 0 <= i < j < |es| ==> es[i].name != es[j].name
  }

  /**
   * The test `color is None or color not in CHART_COLORS`, negated: the
   * palette colour the stored string names, if it is present and names one.
   */
  function StoredColor(e: Entry): (r: Option<ColorManager.Color>)
    ensures r.Some? ==> e.color.Some? && ColorManager.Name(r.value) == e.color.value
    ensures r.None? && e.color.Some? ==> forall c :: ColorManager.Name(c) != e.color.value
  {
    match e.color
    case None => None
    case Some(name) => ColorManager.FromName(name)
  }

  /** `StoredColor` of every entry, in order. */
  function StoredColors(es: seq<Entry>): (ks: seq<Option<ColorManager.Color>>)
    ensures |ks| == |es|
    ensures forall i :: 0 <= i < |es| ==> ks[i] == StoredColor(es[i])
  {
    seq(|es|, i requires 0 <= i < |es| => StoredColor(es[i]))
  }

  /** How many of the first `n` entries need a fresh colour (have no stored palette colour). */
  function FreshBefore(ks: seq<Option<ColorManager.Color>>, n: nat): (k: nat)
    requires n <= |ks|
    ensures k <= n
  {
    if n == 0 then 0 else FreshBefore(ks, n - 1) + (if ks[n - 1].Some? then 0 else 1)
  }

  /**
   * The colour entry `i` ends up with: its stored colour when that names a
   * palette colour; otherwise the palette colours are handed out in order,
   * cyclically, to the entries that need one.
   */
  function LoadedColor(ks: seq<Option<ColorManager.Color>>, i: nat): ColorManager.Color
    requires i < |ks|
  {
    if ks[i].Some? then ks[i].value
    else ColorManager.ChartColors[FreshBefore(ks, i) % ColorManager.PaletteSize]
  }

  /** The names of the first `n` entries. */
  function NamesBefore(es: seq<Entry>, n: nat): set<string>
    requires n <= |es|
  {
    if n == 0 then {} else NamesBefore(es, n - 1) + {es[n - 1].name}
  }

  /** The colours the first `n` entries end up with. */
  function ColorsBefore(ks: seq<Option<ColorManager.Color>>, n: nat): set<ColorManager.Color>
    requires n <= |ks|
  {
    if n == 0 then {} else ColorsBefore(ks, n - 1) + {LoadedColor(ks, n - 1)}
  }

  /** Each name in `NamesBefore` comes from one of the first `n` entries. */
  lemma {:induction false} NameWitness(es: seq<Entry>, n: nat, nm: string) returns (i: nat)
    requires n <= |es|
    requires nm in NamesBefore(es, n)
    ensures i < n && es[i].name == nm
  {
    if nm == es[n - 1].name {
      i := n - 1;
    } else {
      i := NameWitness(es, n - 1, nm);
    }
  }

  /** Each colour in `ColorsBefore` is the colour of one of the first `n` entries. */
  lemma {:induction false} ColorWitness(ks: seq<Option<ColorManager.Color>>, n: nat, c: ColorManager.Color)
    returns (i: nat)
    requires n <= |ks|
    requires c in ColorsBefore(ks, n)
    ensures i < n && LoadedColor(ks, i) == c
  {
    if c == LoadedColor(ks, n - 1) {
      i := n - 1;
    } else {
      i := ColorWitness(ks, n - 1, c);
    }
  }

  /** The colour of each of the first `n` entries is in `ColorsBefore`. */
  lemma {:induction false} ColorMember(ks: seq<Option<ColorManager.Color>>, n: nat, i: nat)
    requires i < n <= |ks|
    ensures LoadedColor(ks, i) in ColorsBefore(ks, n)
  {
    if i < n - 1 {
      ColorMember(ks, n - 1, i);
    }
  }

  /** The loop state of `load_data`: members so far, the allocator, the colours used. */
  datatype LoadState = LoadState(
    members: map<string, MemberData>, colors: ColorManager.Allocator, used: set<ColorManager.Color>)

  /**
   * One iteration of the loop of `load_data`, given the entry's stored
   * palette colour `k`: keep it, or else take the allocator's next colour.
   */
  function LoadStep(ls: LoadState, e: Entry, k: Option<ColorManager.Color>): (r: LoadState)
    ensures r.members.Keys == ls.members.Keys + {e.name}
    ensures r.members[e.name].schedules == e.schedules
    ensures k.Some? ==> r.members[e.name].color == k.value && r.colors == ls.colors
    ensures k.None? ==> r.members[e.name].color == ColorManager.ChartColors[ls.colors.index]
                        && r.colors == ColorManager.NextColor(ls.colors).1
    ensures r.used == ls.used + {r.members[e.name].color}
  {
    var (color, colors') := if k.Some? then (k.value, ls.colors) else ColorManager.NextColor(ls.colors);
    LoadState(ls.members[e.name := MemberData(e.schedules, color)], colors', ls.used + {color})
  }

  /** The loop of `load_data` after its first `n` entries, starting from a fresh allocator. */
  function LoadPrefix(es: seq<Entry>, ks: seq<Option<ColorManager.Color>>, n: nat): (r: LoadState)
    requires |ks| == |es| && n <= |es|
  {
    if n == 0 then LoadState(map[], ColorManager.Initial, {})
    else LoadStep(LoadPrefix(es, ks, n - 1), es[n - 1], ks[n - 1])
  }

  /** After `n` entries the allocator has advanced once per entry that needed a fresh colour. */
  lemma {:induction false} LoadPrefixCursor(es: seq<Entry>, ks: seq<Option<ColorManager.Color>>, n: nat)
    requires |ks| == |es| && n <= |es|
    ensures LoadPrefix(es, ks, n).colors.index == FreshBefore(ks, n) % ColorManager.PaletteSize
  {
    if n > 0 {
      LoadPrefixCursor(es, ks, n - 1);
      var prev := LoadPrefix(es, ks, n - 1);
      if ks[n - 1].None? {
        ColorManager.AdvanceCount(prev.colors, FreshBefore(ks, n - 1));
      }
    }
  }

  /** The colour the loop gives entry `n - 1` is `LoadedColor`, and it joins the used set. */
  lemma LoadStepColor(es: seq<Entry>, ks: seq<Option<ColorManager.Color>>, n: nat)
    requires |ks| == |es| && 0 < n <= |es|
    ensures LoadPrefix(es, ks, n).members
              == LoadPrefix(es, ks, n - 1).members[es[n - 1].name := MemberData(es[n - 1].schedules, LoadedColor(ks, n - 1))]
    ensures LoadPrefix(es, ks, n).used == LoadPrefix(es, ks, n - 1).used + {LoadedColor(ks, n - 1)}
  {
    var prev := LoadPrefix(es, ks, n - 1);
    assert LoadPrefix(es, ks, n) == LoadStep(prev, es[n - 1], ks[n - 1]);
    if ks[n - 1].None? {
      LoadPrefixCursor(es, ks, n - 1);
      assert ColorManager.NextColor(prev.colors).0 == LoadedColor(ks, n - 1);
    }
  }

  /** After `n` entries the members are the first `n` names and the used colours are theirs. */
  lemma {:induction false} LoadPrefixSets(es: seq<Entry>, ks: seq<Option<ColorManager.Color>>, n: nat)
    requires |ks| == |es| && n <= |es|
    ensures LoadPrefix(es, ks, n).members.Keys == NamesBefore(es, n)
    ensures LoadPrefix(es, ks, n).used == ColorsBefore(ks, n)
  {
    if n > 0 {
      LoadPrefixSets(es, ks, n - 1);
      LoadStepColor(es, ks, n);
    }
  }

  /** Entry `i` keeps the record it was given in every later prefix, since later names differ. */
  lemma {:induction false} LoadPrefixMember(es: seq<Entry>, ks: seq<Option<ColorManager.Color>>, n: nat, i: nat)
    requires |ks| == |es| && i < n <= |es|
    requires DistinctNames(es)
    ensures es[i].name in LoadPrefix(es, ks, n).members
    ensures LoadPrefix(es, ks, n).members[es[i].name] == MemberData(es[i].schedules, LoadedColor(ks, i))
    decreases n
  {
    LoadStepColor(es, ks, n);
    if i < n - 1 {
      assert es[i].name != es[n - 1].name;
      LoadPrefixMember(es, ks, n - 1, i);
    }
  }

  /**
   * `DataManager()` followed by `load_data`: `None` stands for a missing or
   * unreadable data file, which leaves an empty store. Otherwise each entry
   * becomes a member with its schedules as stored (not re-sorted). Its
   * colour is the stored one when that names a palette colour; the entries
   * without one get fresh palette colours in allocation order. The
   * allocator is then reseeded with the colours in use (the cursor the loop
   * left behind plays no part). Loading never saves.
   */
  function LoadData(parsed: Option<seq<Entry>>): (st: Store)
    requires parsed.Some? ==> DistinctNames(parsed.value)
    ensures st.saves == 0
    ensures parsed.None? ==> st.members == map[] && st.colors == ColorManager.Initial
    ensures parsed.Some? ==>
              var es := parsed.value;
              var ks := StoredColors(es);
              && st.members.Keys == NamesBefore(es, |es|)
              && (forall i :: 0 <= i < |es| ==> es[i].name in st.members && st.members[es[i].name].schedules == es[i].schedules)
              && (forall i :: 0 <= i < |es| && ks[i].Some? ==>
                    ColorManager.Name(st.members[es[i].name].color) == es[i].color.value)
              && (forall i :: 0 <= i < |es| && ks[i].None? ==>
                    st.members[es[i].name].color == ColorManager.ChartColors[FreshBefore(ks, i) % ColorManager.PaletteSize])
              && st.colors == ColorManager.Reseed(ColorManager.Initial, set n | n in st.members :: st.members[n].color)
  {
    match parsed
    case None => Store(map[], ColorManager.Initial, 0)
    case Some(es) =>
      var ks := StoredColors(es);
      var ls := LoadPrefix(es, ks, |es|);
      LoadPrefixSets(es, ks, |es|);
      assert forall i :: 0 <= i < |es| ==>
               es[i].name in ls.members && ls.members[es[i].name] == MemberData(es[i].schedules, LoadedColor(ks, i)) by {
        forall i | 0 <= i < |es|
          ensures es[i].name in ls.members && ls.members[es[i].name] == MemberData(es[i].schedules, LoadedColor(ks, i))
        {
          LoadPrefixMember(es, ks, |es|, i);
        }
      }
      assert (set n | n in ls.members :: ls.members[n].color) == ls.used by {
        forall c | c in ls.used ensures c in (set n | n in ls.members :: ls.members[n].color) {
          var i := ColorWitness(ks, |es|, c);
          assert ls.members[es[i].name].color == c;
        }
        forall nm | nm in ls.members ensures ls.members[nm].color in ls.used {
          var i := NameWitness(es, |es|, nm);
          assert ls.members[nm].color == LoadedColor(ks, i);
          ColorMember(ks, |es|, i);
        }
      }
      Store(ls.members, ColorManager.Reseed(ls.colors, ls.used), 0)
  }
}
