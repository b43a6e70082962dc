/** The member table: the conjunctive filter pipeline, the click-to-sort
    columns, the "valid upto" date and the PIN-gated delete dialog. */
module MemberList {
  import opened Common
  import opened Dates
  import opened Seqs
  import opened Members

  // ---------------------------------------------------------------------------
  // Dates shown and compared in the table
  // ---------------------------------------------------------------------------

  /** `new Date(x).toLocaleDateString('en-GB')`, read as the calendar day it
      names; `None` is the text "Invalid Date", which equals itself. */
  function FormatDate(x: Option<Date>): Option<Date> {
    match x
    case Some(d) => Some(Normalize(d))
    case None => None
  }

  /** `calculateValidUpto(start, duration)`: the start moved on by `duration`
      months with `setMonth`; an invalid start stays invalid. */
  function ValidUpto(start: Option<Date>, duration: int): Option<Date> {
    match start
    case Some(d) => Some(AddMonths(d, duration))
    case None => None
  }

  /** `calculateValidUpto` as the code runs it, on a mutable Date object. */
  method CalculateValidUpto(start: Option<Date>, duration: int) returns (r: Option<Date>)
    ensures r == ValidUpto(start, duration)
  {
    if start.None? {
      return None;
    }
    var joining := new JsDate(start.value);
    var m := joining.GetMonth();
    joining.SetMonth(m + duration);
    r := Some(joining.Value());
  }

  /** The valid-upto date of a valid start is a valid date that keeps the day of
      the month when that day exists in the target month, and otherwise spills
      over into the month after it. */
  lemma ValidUptoCalendar(d: Date, duration: int)
    requires ValidDate(d)
    ensures var ym, mn := d.year + (d.month + duration) / 12, (d.month + duration) % 12;
            var n := NextMonth(ym, mn);
            ValidUpto(Some(d), duration)
            == Some(if d.day <= DaysInMonth(ym, mn) then Date(ym, mn, d.day)
                    else Date(n.0, n.1, d.day - DaysInMonth(ym, mn)))
  {
    var ym, mn := d.year + (d.month + duration) / 12, (d.month + duration) % 12;
    if d.day <= DaysInMonth(ym, mn) {
      AddMonthsInMonth(d, duration);
    } else {
      AddMonthsOverflow(d, duration);
    }
  }

  // ---------------------------------------------------------------------------
  // The filter pipeline
  // ---------------------------------------------------------------------------

  /** The six filter strings; an empty string is an inactive filter. */
  datatype Filters = Filters(
    search: string, verified: string, gender: string,
    duration: string, joined: string, validUpto: string)

  predicate MatchesSearch(query: string, m: Member) {
    Includes(ToLower(m.name), ToLower(query))
  }

  predicate MatchesVerified(choice: string, m: Member) {
    if choice == "verified" then m.verified else !m.verified
  }

  predicate MatchesGender(gender: string, m: Member) {
    m.gender == gender
  }

  /** `member.duration === parseInt(text)`; NaN equals no duration. */
  predicate MatchesDuration(text: string, m: Member) {
    ParseInt(text) == Some(m.duration)
  }

  /** A duration filter holding the decimal numeral of `d` keeps exactly the
      members whose duration is `d`. */
  lemma DurationFilterOfNumeral(d: nat, m: Member)
    ensures MatchesDuration(NatToString(d), m) <==> m.duration == d
  {
    ParseIntOfNatString(d, []);
    assert NatToString(d) + [] == NatToString(d);
  }

  /** Same displayed day as the joining date. */
  predicate MatchesJoined(text: string, m: Member) {
    FormatDate(Some(m.doj)) == FormatDate(ParseIsoDate(text))
  }

  /** Same displayed day as the valid-upto date computed from the joining date. */
  predicate MatchesValidUpto(text: string, m: Member) {
    ValidUpto(Some(m.doj), m.duration) == FormatDate(ParseIsoDate(text))
  }

  /** The text of filter `i`, in the order the effect applies them. */
  function FilterText(i: nat, f: Filters): string
    requires i < 6
  {
    if i == 0 then f.search
    else if i == 1 then f.verified
    else if i == 2 then f.gender
    else if i == 3 then f.duration
    else if i == 4 then f.joined
    else f.validUpto
  }

  predicate Matches(i: nat, f: Filters, m: Member)
    requires i < 6
  {
    if i == 0 then MatchesSearch(f.search, m)
    else if i == 1 then MatchesVerified(f.verified, m)
    else if i == 2 then MatchesGender(f.gender, m)
    else if i == 3 then MatchesDuration(f.duration, m)
    else if i == 4 then MatchesJoined(f.joined, m)
    else MatchesValidUpto(f.validUpto, m)
  }

  /** Filter `i` lets `m` through: it is inactive, or `m` matches it. */
  predicate Passes(i: nat, f: Filters, m: Member)
    requires i < 6
  {
    FilterText(i, f) == "" || Matches(i, f, m)
  }

  /** `m` passes the first `n` filters. */
  predicate PassesFirst(n: nat, f: Filters, m: Member)
    requires n <= 6
  {
    n == 0 || (PassesFirst(n - 1, f, m) && Passes(n - 1, f, m))
  }

  predicate Keeps(f: Filters, m: Member) {
    PassesFirst(6, f, m)
  }

  /** The list the effect stores: the members every active filter keeps. */
  function FilterMembers(members: seq<Member>, f: Filters): seq<Member> {
    Filter(members, m => Keeps(f, m))
  }

  predicate NoFilterActive(f: Filters) {
    f.search == "" && f.verified == "" && f.gender == "" && f.duration == ""
    && f.joined == "" && f.validUpto == ""
  }

  lemma KeepsAll(f: Filters, m: Member)
    ensures Keeps(f, m) <==> (Passes(0, f, m) && Passes(1, f, m) && Passes(2, f, m)
                           && Passes(3, f, m) && Passes(4, f, m) && Passes(5, f, m))
  {
    assert PassesFirst(1, f, m) == Passes(0, f, m);
    assert PassesFirst(2, f, m) == (PassesFirst(1, f, m) && Passes(1, f, m));
    assert PassesFirst(3, f, m) == (PassesFirst(2, f, m) && Passes(2, f, m));
    assert PassesFirst(4, f, m) == (PassesFirst(3, f, m) && Passes(3, f, m));
    assert PassesFirst(5, f, m) == (PassesFirst(4, f, m) && Passes(4, f, m));
  }

  /** A member is kept exactly when it passes every active filter. */
  lemma KeepsIff(f: Filters, m: Member)
    ensures Keeps(f, m) <==>
      (f.search != "" ==> Includes(ToLower(m.name), ToLower(f.search)))
      && (f.verified == "verified" ==> m.verified)
      && (f.verified != "" && f.verified != "verified" ==> !m.verified)
      && (f.gender != "" ==> m.gender == f.gender)
      && (f.duration != "" ==> ParseInt(f.duration) == Some(m.duration))
      && (f.joined != "" ==> ParseIsoDate(f.joined) == Some(Normalize(m.doj)))
      && (f.validUpto != "" ==> ParseIsoDate(f.validUpto) == Some(AddMonths(m.doj, m.duration)))
  {
    KeepsAll(f, m);
    PassesJoined(f, m);
    PassesValidUpto(f, m);
  }

  /** The joining-date filter compares normalised days, and a parsed date is
      already normal. */
  lemma PassesJoined(f: Filters, m: Member)
    ensures Passes(4, f, m) <==> (f.joined != "" ==> ParseIsoDate(f.joined) == Some(Normalize(m.doj)))
  {
    if ParseIsoDate(f.joined).Some? {
      NormalizeValid(ParseIsoDate(f.joined).value);
    }
  }

  lemma PassesValidUpto(f: Filters, m: Member)
    ensures Passes(5, f, m) <==>
      (f.validUpto != "" ==> ParseIsoDate(f.validUpto) == Some(AddMonths(m.doj, m.duration)))
  {
    if ParseIsoDate(f.validUpto).Some? {
      NormalizeValid(ParseIsoDate(f.validUpto).value);
    }
  }

  /** The filtered list is the members list with some members deleted. */
  lemma FilterMembersSubsequence(members: seq<Member>, f: Filters)
    ensures IsSubsequence(FilterMembers(members, f), members)
  {
    FilterIsSubsequence(members, m => Keeps(f, m));
  }

  lemma FilterMembersMembership(members: seq<Member>, f: Filters, m: Member)
    ensures m in FilterMembers(members, f) <==> m in members && Keeps(f, m)
  {
    FilterMembership(members, x => Keeps(f, x), m);
  }

  /** With every filter empty the table shows all members, in their order. */
  lemma FilterMembersNoFilter(members: seq<Member>, f: Filters)
    requires NoFilterActive(f)
    ensures FilterMembers(members, f) == members
  {
    forall i | 0 <= i < |members| ensures Keeps(f, members[i]) {
      KeepsAll(f, members[i]);
    }
    FilterAll(members, m => Keeps(f, m));
  }

  /** The valid-upto filter reads the joining date, while the table's "Valid Upto"
      column shows `calculateValidUpto(planStarted, duration)`: two members that
      differ only in `planStarted` are filtered alike. */
  lemma ValidUptoFilterIgnoresPlanStarted(text: string, m: Member, p: Option<Date>)
    ensures MatchesValidUpto(text, m) == MatchesValidUpto(text, m.(planStarted := p))
  {
  }

  /** The column shown for a member. */
  function DisplayedValidUpto(m: Member): Option<Date> {
    ValidUpto(m.planStarted, m.duration)
  }

  /** For a member whose plan started on the joining day, the valid-upto filter
      keeps the member exactly when its text names the day the column shows. */
  lemma ValidUptoFilterAgreesWhenStartedOnJoining(text: string, m: Member)
    requires m.planStarted == Some(m.doj)
    ensures MatchesValidUpto(text, m) <==> DisplayedValidUpto(m) == FormatDate(ParseIsoDate(text))
  {
  }

  /** A member who joined on 15 January 2024 and whose plan started on 1 March. */
  const LateStarter: Member := Member(Some(1), "A", 30, None, "male", "0123456789", None, None, 1,
                                      "cash", None, Some("R"), true, "500", Date(2024, 0, 15),
                                      Some(Date(2024, 2, 1)))

  /** For that member the valid-upto filter matches 15 February, one month after
      joining, while the column displays 1 April, one month after the plan started. */
  lemma ValidUptoFilterDisagreesWithColumn()
    ensures MatchesValidUpto(IsoDateString(Date(2024, 1, 15)), LateStarter)
    ensures DisplayedValidUpto(LateStarter) == Some(Date(2024, 3, 1))
  {
    FebruaryFifteenth();
    FebruaryFifteenthShown();
    AddMonthsInMonth(Date(2024, 2, 1), 1);
  }

  lemma FebruaryFifteenth()
    ensures AddMonths(Date(2024, 0, 15), 1) == Date(2024, 1, 15)
  {
    AddMonthsInMonth(Date(2024, 0, 15), 1);
  }

  lemma FebruaryFifteenthShown()
    ensures FormatDate(ParseIsoDate(IsoDateString(Date(2024, 1, 15)))) == Some(Date(2024, 1, 15))
  {
    ReadBack(Date(2024, 1, 15));
  }

  /** A valid date in a four-digit year is shown as the day its string names. */
  lemma ReadBack(d: Date)
    requires ValidDate(d) && 0 <= d.year <= 9999
    ensures FormatDate(ParseIsoDate(IsoDateString(d))) == Some(d)
  {
    ParseIsoDateOfString(d);
    NormalizeValid(d);
  }

  /** The list after the first `n` filters of the effect. */
  function Stage(members: seq<Member>, f: Filters, n: nat): seq<Member>
    requires n <= 6
  {
    Filter(members, m => PassesFirst(n, f, m))
  }

  /** One step of the effect: an active filter `p` narrows the previous stage to
      the next one, and an inactive filter leaves it as it is. */
  lemma {:induction false} StageStep(members: seq<Member>, f: Filters, n: nat, p: Member -> bool)
    requires n < 6
    requires forall m :: p(m) == Matches(n, f, m)
    ensures FilterText(n, f) != "" ==> Filter(Stage(members, f, n), p) == Stage(members, f, n + 1)
    ensures FilterText(n, f) == "" ==> Stage(members, f, n) == Stage(members, f, n + 1)
  {
    if FilterText(n, f) != "" {
      FilterFilter(members, m => PassesFirst(n, f, m), p, m => PassesFirst(n + 1, f, m));
    } else {
      FilterExt(members, m => PassesFirst(n, f, m), m => PassesFirst(n + 1, f, m));
    }
  }

  lemma StageFirst(members: seq<Member>, f: Filters)
    ensures Stage(members, f, 0) == members
  {
    FilterAll(members, m => PassesFirst(0, f, m));
  }

  lemma StageLast(members: seq<Member>, f: Filters)
    ensures Stage(members, f, 6) == FilterMembers(members, f)
  {
    FilterExt(members, m => PassesFirst(6, f, m), m => Keeps(f, m));
  }

  /** The effect's `if (text) filtered = filtered.filter(...)` for filter `n`. */
  method Narrow(members: seq<Member>, f: Filters, n: nat, filtered: seq<Member>)
    returns (r: seq<Member>)
    requires n < 6 && filtered == Stage(members, f, n)
    ensures r == Stage(members, f, n + 1)
  {
    StageStep(members, f, n, m => Matches(n, f, m));
    r := filtered;
    if FilterText(n, f) != "" {
      r := Filter(filtered, m => Matches(n, f, m));
    }
  }

  // ---------------------------------------------------------------------------
  // Sorting
  // ---------------------------------------------------------------------------

  datatype Order = Asc | Desc

  datatype SortBy = SortBy(field: string, order: Order)

  /** The order a click on `field` selects: descending exactly when the same
      field is currently ascending. */
  function NextOrder(current: SortBy, field: string): Order {
    if current.field == field && current.order == Asc then Desc else Asc
  }

  /** The column comparator; `collate` stands for `String.prototype.localeCompare`. */
  function Compare(a: Member, b: Member, field: string, order: Order,
                   collate: (string, string) -> int): int {
    if field == "serialNumber" then
      if order == Asc then SerialOr(a, 0) - SerialOr(b, 0) else SerialOr(b, 0) - SerialOr(a, 0)
    else if field == "name" then
      if order == Asc then collate(a.name, b.name) else collate(b.name, a.name)
    else 0
  }

  /** `[...list].sort(comparator)`: a stable sort, in which `a` goes before `b`
      exactly when the comparator returns a negative number. */
  function SortMembers(list: seq<Member>, field: string, order: Order,
                       collate: (string, string) -> int): seq<Member> {
    InsertionSort(list, (a, b) => Compare(a, b, field, order, collate) < 0)
  }

  /** `localeCompare` as a total preorder on names: the sign flips with the
      arguments, and "sorts no later than" is transitive. */
  ghost predicate IsCollation(collate: (string, string) -> int) {
    (forall a, b :: collate(a, b) < 0 <==> collate(b, a) > 0)
    && (forall a, b, c :: collate(a, b) <= 0 && collate(b, c) <= 0 ==> collate(a, c) <= 0)
  }

  lemma SortPermutation(list: seq<Member>, field: string, order: Order,
                        collate: (string, string) -> int)
    ensures multiset(SortMembers(list, field, order, collate)) == multiset(list)
  {
  }

  lemma SortBySerial(list: seq<Member>, order: Order, collate: (string, string) -> int)
    ensures var r := SortMembers(list, "serialNumber", order, collate);
            forall i, j :: 0 <= i < j < |r| ==>
              if order == Asc then SerialOr(r[i], 0) <= SerialOr(r[j], 0)
              else SerialOr(r[i], 0) >= SerialOr(r[j], 0)
  {
    var less := (a, b) => Compare(a, b, "serialNumber", order, collate) < 0;
    assert StrictOrder(less) by {
      forall a, b, c | less(a, b) && less(b, c) ensures less(a, c) {
      }
    }
    InsertionSortSorted(list, less);
    var r := InsertionSort(list, less);
    forall i, j | 0 <= i < j < |r|
      ensures if order == Asc then SerialOr(r[i], 0) <= SerialOr(r[j], 0)
              else SerialOr(r[i], 0) >= SerialOr(r[j], 0)
    {
      assert !less(r[j], r[i]);
    }
  }

  lemma SortByName(list: seq<Member>, order: Order, collate: (string, string) -> int)
    requires IsCollation(collate)
    ensures var r := SortMembers(list, "name", order, collate);
            forall i, j :: 0 <= i < j < |r| ==>
              if order == Asc then collate(r[i].name, r[j].name) <= 0
              else collate(r[j].name, r[i].name) <= 0
  {
    var less := (a, b) => Compare(a, b, "name", order, collate) < 0;
    assert StrictOrder(less) by {
      forall a, b, c | less(a, b) && less(b, c) ensures less(a, c) {
        CollationStrictTransitive(collate, if order == Asc then a.name else c.name,
                                  b.name, if order == Asc then c.name else a.name);
      }
      forall a ensures !less(a, a) {
        assert collate(a.name, a.name) < 0 ==> collate(a.name, a.name) > 0;
      }
    }
    InsertionSortSorted(list, less);
    var r := InsertionSort(list, less);
    forall i, j | 0 <= i < j < |r|
      ensures if order == Asc then collate(r[i].name, r[j].name) <= 0
              else collate(r[j].name, r[i].name) <= 0
    {
      assert !less(r[j], r[i]);
      if order == Asc {
        assert collate(r[j].name, r[i].name) >= 0;
      } else {
        assert collate(r[i].name, r[j].name) >= 0;
      }
    }
  }

  lemma CollationStrictTransitive(collate: (string, string) -> int, a: string, b: string, c: string)
    requires IsCollation(collate)
    requires collate(a, b) < 0 && collate(b, c) < 0
    ensures collate(a, c) < 0
  {
    assert collate(a, c) <= 0;
  }

  /** Any other column name leaves the order as it is. */
  lemma SortByOtherField(list: seq<Member>, field: string, order: Order,
                         collate: (string, string) -> int)
    requires field != "serialNumber" && field != "name"
    ensures SortMembers(list, field, order, collate) == list
  {
    InsertionSortNoOrder(list, (a, b) => Compare(a, b, field, order, collate) < 0);
  }

  /** Clicking the same column alternates the order; another column starts ascending. */
  lemma SortToggle(current: SortBy, field: string)
    ensures field != current.field ==> NextOrder(current, field) == Asc
    ensures NextOrder(SortBy(field, NextOrder(current, field)), field)
         == (if NextOrder(current, field) == Asc then Desc else Asc)
  {
  }

  // ---------------------------------------------------------------------------
  // The component's state
  // ---------------------------------------------------------------------------

  /** The inputs the toolbar renders; the joining and valid-upto filters have none. */
  datatype FilterInput = SearchBox | VerifiedSelect | GenderSelect | DurationBox

  class MemberListView {
    var searchQuery: string
    var filterVerified: string
    var filterGender: string
    var filterDuration: string
    var filterDOJ: string
    var filterValidUpto: string
    /** `None` is `undefined`: the effect stores the query's data before it arrives. */
    var filteredMembers: Option<seq<Member>>
    var sortBy: SortBy
    var pin: string
    var showDeleteDialog: bool
    var memberToDelete: Option<Member>

    function CurrentFilters(): Filters
      reads this
    {
      Filters(searchQuery, filterVerified, filterGender, filterDuration, filterDOJ, filterValidUpto)
    }

    /** Nothing in the page ever sets the joining or valid-upto filter. */
    ghost predicate Valid()
      reads this
    {
      filterDOJ == "" && filterValidUpto == ""
    }

    constructor ()
      ensures Valid()
      ensures CurrentFilters() == Filters("", "", "", "", "", "")
      ensures filteredMembers == Some([]) && sortBy == SortBy("", Asc)
      ensures pin == "" && !showDeleteDialog && memberToDelete.None?
    {
      searchQuery, filterVerified, filterGender, filterDuration := "", "", "", "";
      filterDOJ, filterValidUpto := "", "";
      filteredMembers := Some([]);
      sortBy := SortBy("", Asc);
      pin := "";
      showDeleteDialog := false;
      memberToDelete := None;
    }

    /** The effect that runs whenever a filter or `members` changes. Starting
        from `members`, each active filter narrows the list; filtering an
        `undefined` list throws, and the stored list is then left as it was. */
    method RunFilterEffect(members: Option<seq<Member>>) returns (thrown: bool)
      modifies this
      ensures thrown <==> members.None? && !NoFilterActive(CurrentFilters())
      ensures thrown ==> filteredMembers == old(filteredMembers)
      ensures !thrown && members.Some? ==>
        filteredMembers == Some(FilterMembers(members.value, CurrentFilters()))
      ensures !thrown && members.None? ==> filteredMembers.None?
      ensures CurrentFilters() == old(CurrentFilters()) && sortBy == old(sortBy)
      ensures pin == old(pin) && showDeleteDialog == old(showDeleteDialog)
      ensures memberToDelete == old(memberToDelete)
    {
      var f := CurrentFilters();
      thrown := false;
      if members.None? {
        if !NoFilterActive(f) {
          thrown := true;
          return;
        }
        filteredMembers := None;
        return;
      }
      var all := members.value;
      var filtered := all;
      StageFirst(all, f);
      filtered := Narrow(all, f, 0, filtered);
      filtered := Narrow(all, f, 1, filtered);
      filtered := Narrow(all, f, 2, filtered);
      filtered := Narrow(all, f, 3, filtered);
      filtered := Narrow(all, f, 4, filtered);
      filtered := Narrow(all, f, 5, filtered);
      StageLast(all, f);
      filteredMembers := Some(filtered);
    }

    /** Typing into a toolbar input stores the text and re-runs the effect, so
        the list is recomputed from `members` and any earlier sort is lost. */
    method ChangeFilter(input: FilterInput, value: string, members: Option<seq<Member>>)
      returns (thrown: bool)
      requires Valid()
      modifies this
      ensures Valid()
      ensures CurrentFilters() == match input
        case SearchBox => old(CurrentFilters()).(search := value)
        case VerifiedSelect => old(CurrentFilters()).(verified := value)
        case GenderSelect => old(CurrentFilters()).(gender := value)
        case DurationBox => old(CurrentFilters()).(duration := value)
      ensures thrown <==> members.None? && !NoFilterActive(CurrentFilters())
      ensures thrown ==> filteredMembers == old(filteredMembers)
      ensures !thrown && members.Some? ==>
        filteredMembers == Some(FilterMembers(members.value, CurrentFilters()))
      ensures !thrown && members.None? ==> filteredMembers.None?
      ensures sortBy == old(sortBy) && pin == old(pin)
      ensures showDeleteDialog == old(showDeleteDialog) && memberToDelete == old(memberToDelete)
    {
      match input {
        case SearchBox => searchQuery := value;
        case VerifiedSelect => filterVerified := value;
        case GenderSelect => filterGender := value;
        case DurationBox => filterDuration := value;
      }
      thrown := RunFilterEffect(members);
    }

    /** A click on a column header: toggles the order, sorts a copy of the shown
        list and records the field and order. Spreading an `undefined` list throws. */
    method HandleSort(field: string, collate: (string, string) -> int) returns (thrown: bool)
      modifies this
      ensures thrown <==> old(filteredMembers).None?
      ensures thrown ==> filteredMembers == old(filteredMembers) && sortBy == old(sortBy)
      ensures !thrown ==>
        && sortBy == SortBy(field, NextOrder(old(sortBy), field))
        && filteredMembers == Some(SortMembers(old(filteredMembers).value, field, sortBy.order, collate))
      ensures CurrentFilters() == old(CurrentFilters()) && pin == old(pin)
      ensures showDeleteDialog == old(showDeleteDialog) && memberToDelete == old(memberToDelete)
    {
      var order := NextOrder(sortBy, field);
      if filteredMembers.None? {
        return true;
      }
      var sorted := SortMembers(filteredMembers.value, field, order, collate);
      filteredMembers := Some(sorted);
      sortBy := SortBy(field, order);
      thrown := false;
    }

    /** The delete icon of a row: remembers the member and opens the dialog. */
    method HandleDeleteClick(m: Member)
      modifies this
      ensures memberToDelete == Some(m) && showDeleteDialog
      ensures pin == old(pin) && filteredMembers == old(filteredMembers)
      ensures sortBy == old(sortBy) && CurrentFilters() == old(CurrentFilters())
    {
      memberToDelete := Some(m);
      showDeleteDialog := true;
    }

    method SetPin(value: string)
      modifies this
      ensures pin == value
      ensures showDeleteDialog == old(showDeleteDialog) && memberToDelete == old(memberToDelete)
      ensures filteredMembers == old(filteredMembers) && sortBy == old(sortBy)
      ensures CurrentFilters() == old(CurrentFilters())
    {
      pin := value;
    }

    /** The dialog's Cancel button closes it and forgets nothing else. */
    method CancelDelete()
      modifies this
      ensures !showDeleteDialog
      ensures pin == old(pin) && memberToDelete == old(memberToDelete)
      ensures filteredMembers == old(filteredMembers) && sortBy == old(sortBy)
      ensures CurrentFilters() == old(CurrentFilters())
    {
      showDeleteDialog := false;
    }

    /** The dialog's Confirm button. With the right PIN it asks the server to delete
        the remembered member (`requested`); `deleteSucceeds` is the server's answer.
        Reading the id of a missing member throws inside the `try`, which the code
        handles like a failed delete. */
    method ConfirmDeleteMember(deleteSucceeds: bool) returns (requested: Option<Member>)
      modifies this
      ensures requested.Some? <==> old(pin) == CorrectPin && old(memberToDelete).Some?
      ensures requested.Some? ==> requested == old(memberToDelete)
      ensures requested.Some? && deleteSucceeds ==>
        !showDeleteDialog && memberToDelete.None? && pin == ""
      ensures !(requested.Some? && deleteSucceeds) ==>
        && showDeleteDialog == old(showDeleteDialog)
        && memberToDelete == old(memberToDelete)
        && pin == old(pin)
      ensures filteredMembers == old(filteredMembers) && sortBy == old(sortBy)
      ensures CurrentFilters() == old(CurrentFilters())
    {
      requested := None;
      if pin == CorrectPin {
        if memberToDelete.Some? {
          requested := memberToDelete;
          if deleteSucceeds {
            showDeleteDialog := false;
            memberToDelete := None;
            pin := "";
          }
        }
      }
    }
  }
}
