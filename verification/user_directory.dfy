/**
 * The optimised user directory: a department lookup table, and the list of users filtered by a
 * search term and a department, marked active or inactive, and ordered by most recent login.
 */
module UserDirectory {
  import opened Base
  import opened Text

  /** A directory entry; `lastLogin` is the login instant in milliseconds since the epoch. */
  datatype DirUser = DirUser(id: string, name: string, email: string, department: string, lastLogin: int, isActive: Option<bool>)

  datatype Department = Department(id: string, name: string)

  /** The department selector's "every department" entry. */
  const AllDepartments: string := "all"

  const UnknownDepartment: string := "Unknown"

  /** Thirty days in milliseconds: a login more recent than this counts as active. */
  const ActiveWindowMs: int := 30 * 24 * 60 * 60 * 1000

  // ---------------------------------------------------------------------------
  // Department lookup

  /** The lookup table built from the departments in order, a later id overwriting an earlier one. */
  function DepartmentMapOf(departments: seq<Department>): (m: map<string, Department>)
    ensures forall id | id in m :: m[id].id == id && m[id] in departments
  {
    if departments == [] then map[]
    else
      var last := departments[|departments| - 1];
      DepartmentMapOf(departments[..|departments| - 1])[last.id := last]
  }

  /** `i` is the last position holding a department with id `id`. */
  predicate LastWithId(departments: seq<Department>, id: string, i: int) {
    0 <= i < |departments| && departments[i].id == id
    && forall j :: i < j < |departments| ==> departments[j].id != id
  }

  /** The ids the departments carry. */
  function DepartmentIds(departments: seq<Department>): set<string> {
    set i | 0 <= i < |departments| :: departments[i].id
  }

  /** The table's keys are exactly the departments' ids. */
  lemma {:induction false} DepartmentMapKeys(departments: seq<Department>)
    ensures DepartmentMapOf(departments).Keys == DepartmentIds(departments)
  {
    if departments != [] {
      var n := |departments| - 1;
      var init := departments[..n];
      DepartmentMapKeys(init);
      assert DepartmentIds(departments) == DepartmentIds(init) + {departments[n].id} by {
        forall id | id in DepartmentIds(departments) ensures id in DepartmentIds(init) + {departments[n].id} {
          var i :| 0 <= i < |departments| && departments[i].id == id;
          if i < n { assert init[i] == departments[i]; }
        }
      }
    }
  }

  /** Each key maps to the last department carrying that id: a later entry overrides an earlier one. */
  lemma {:induction false} DepartmentMapLastWins(departments: seq<Department>, id: string) returns (i: nat)
    requires id in DepartmentMapOf(departments)
    ensures LastWithId(departments, id, i) && DepartmentMapOf(departments)[id] == departments[i]
  {
    var n := |departments| - 1;
    var init := departments[..n];
    if id == departments[n].id {
      i := n;
    } else {
      i := DepartmentMapLastWins(init, id);
      assert departments[i] == init[i];
    }
  }

  /** The `forEach` that fills the lookup table. */
  method BuildDepartmentMap(departments: seq<Department>) returns (m: map<string, Department>)
    ensures m == DepartmentMapOf(departments)
  {
    m := map[];
    var i := 0;
    while i < |departments|
      invariant 0 <= i <= |departments|
      invariant m == DepartmentMapOf(departments[..i])
    {
      var d := departments[i];
      assert departments[..i + 1][..i] == departments[..i];
      m := m[d.id := d];
      i := i + 1;
    }
    assert departments[..i] == departments;
  }

  /** The department line of a user card: the looked-up name, or "Unknown" when there is none or it is empty. */
  function DepartmentLabel(m: map<string, Department>, departmentId: string): (r: string)
    ensures departmentId in m && m[departmentId].name != "" ==> r == m[departmentId].name
    ensures !(departmentId in m) || m[departmentId].name == "" ==> r == UnknownDepartment
  {
    if departmentId in m && m[departmentId].name != "" then m[departmentId].name else UnknownDepartment
  }

  /** A user whose department is listed under a non-empty name shows that name. */
  lemma LabelOfListedDepartment(departments: seq<Department>, i: nat)
    requires i < |departments| && departments[i].name != ""
    requires forall j :: 0 <= j < |departments| && j != i ==> departments[j].id != departments[i].id
    ensures DepartmentLabel(DepartmentMapOf(departments), departments[i].id) == departments[i].name
  {
    DepartmentMapKeys(departments);
    var k := DepartmentMapLastWins(departments, departments[i].id);
    assert k == i;
  }

  /** The status line of a user card. */
  function StatusText(u: DirUser): (r: string)
    ensures r == "Active" <==> u.isActive == Some(true)
  {
    if u.isActive == Some(true) then "Active" else "Inactive"
  }

  // ---------------------------------------------------------------------------
  // Filtering and activity

  /** The name or the e-mail contains the search term, ignoring letter case. */
  predicate MatchesSearch(u: DirUser, searchTerm: string) {
    Contains(ToLower(u.name), ToLower(searchTerm)) || Contains(ToLower(u.email), ToLower(searchTerm))
  }

  /** The department selector lets every user through on "all", otherwise only that department. */
  predicate MatchesDepartment(u: DirUser, selectedDepartment: string) {
    selectedDepartment == AllDepartments || u.department == selectedDepartment
  }

  function Matches(searchTerm: string, selectedDepartment: string): DirUser -> bool {
    (u: DirUser) => MatchesSearch(u, searchTerm) && MatchesDepartment(u, selectedDepartment)
  }

  /** A user with `isActive` recomputed from the time since the last login. */
  function WithActivity(u: DirUser, now: int): (r: DirUser)
    ensures r.isActive == Some(now - u.lastLogin < ActiveWindowMs)
    ensures r.(isActive := u.isActive) == u
  {
    u.(isActive := Some(now - u.lastLogin < ActiveWindowMs))
  }

  function MarkActivity(users: seq<DirUser>, now: int): (r: seq<DirUser>)
    ensures |r| == |users|
    ensures forall i :: 0 <= i < |users| ==> r[i] == WithActivity(users[i], now)
  {
    seq(|users|, i requires 0 <= i < |users| => WithActivity(users[i], now))
  }

  // ---------------------------------------------------------------------------
  // Ordering by most recent login (a stable sort, as `Array.prototype.sort` is)

  predicate SortedByRecency(s: seq<DirUser>) {
    forall i, j :: 0 <= i < j < |s| ==> s[i].lastLogin >= s[j].lastLogin
  }

  /** `x` placed before the first element that logged in no later than it. */
  function Insert(x: DirUser, s: seq<DirUser>): (r: seq<DirUser>)
    ensures multiset(r) == multiset(s) + multiset{x}
  {
    if s == [] then [x]
    else if s[0].lastLogin <= x.lastLogin then [x] + s
    else
      assert s == [s[0]] + s[1..];
      [s[0]] + Insert(x, s[1..])
  }

  /** Nobody in `s` logged in after instant `t`. */
  predicate NoneAfter(s: seq<DirUser>, t: int) {
    forall i :: 0 <= i < |s| ==> s[i].lastLogin <= t
  }

  lemma {:induction false} InsertNoneAfter(x: DirUser, s: seq<DirUser>, t: int)
    requires NoneAfter(s, t) && x.lastLogin <= t
    ensures NoneAfter(Insert(x, s), t)
  {
    if s != [] && s[0].lastLogin > x.lastLogin {
      InsertNoneAfter(x, s[1..], t);
      var rest := Insert(x, s[1..]);
      assert Insert(x, s) == [s[0]] + rest;
      forall i | 0 <= i < |[s[0]] + rest| ensures ([s[0]] + rest)[i].lastLogin <= t {
        if i > 0 { assert ([s[0]] + rest)[i] == rest[i - 1]; }
      }
    }
  }

  /** Inserting into a list ordered by recency keeps it ordered. */
  lemma {:induction false} InsertSorted(x: DirUser, s: seq<DirUser>)
    requires SortedByRecency(s)
    ensures SortedByRecency(Insert(x, s))
  {
    if s != [] && s[0].lastLogin > x.lastLogin {
      var tail := s[1..];
      InsertSorted(x, tail);
      InsertNoneAfter(x, tail, s[0].lastLogin);
      var rest := Insert(x, tail);
      var r := [s[0]] + rest;
      assert Insert(x, s) == r;
      forall i, j | 0 <= i < j < |r| ensures r[i].lastLogin >= r[j].lastLogin {
        assert r[j] == rest[j - 1];
        if i > 0 { assert r[i] == rest[i - 1]; }
      }
    }
  }

  /** Insertion sort by descending `lastLogin`. */
  function SortByRecency(s: seq<DirUser>): (r: seq<DirUser>)
    ensures multiset(r) == multiset(s)
    ensures SortedByRecency(r)
  {
    if s == [] then []
    else
      assert s == [s[0]] + s[1..];
      InsertSorted(s[0], SortByRecency(s[1..]));
      Insert(s[0], SortByRecency(s[1..]))
  }

  /** Selects the users whose login instant is `t`. */
  function LoggedInAt(t: int): DirUser -> bool {
    (u: DirUser) => u.lastLogin == t
  }

  lemma {:induction false} InsertOtherInstant(x: DirUser, s: seq<DirUser>, t: int)
    requires x.lastLogin != t
    ensures Filter(Insert(x, s), LoggedInAt(t)) == Filter(s, LoggedInAt(t))
  {
    var keep := LoggedInAt(t);
    assert !keep(x);
    if s == [] {
      FilterCons(x, [], keep);
    } else if s[0].lastLogin <= x.lastLogin {
      assert Insert(x, s) == [x] + s;
      FilterCons(x, s, keep);
    } else {
      var rest := Insert(x, s[1..]);
      assert Insert(x, s) == [s[0]] + rest;
      InsertOtherInstant(x, s[1..], t);
      FilterCons(s[0], rest, keep);
      FilterCons(s[0], s[1..], keep);
      assert s == [s[0]] + s[1..];
    }
  }

  lemma {:induction false} InsertSameInstant(x: DirUser, s: seq<DirUser>)
    ensures Filter(Insert(x, s), LoggedInAt(x.lastLogin)) == [x] + Filter(s, LoggedInAt(x.lastLogin))
  {
    var keep := LoggedInAt(x.lastLogin);
    assert keep(x);
    if s == [] {
      FilterCons(x, [], keep);
    } else if s[0].lastLogin <= x.lastLogin {
      assert Insert(x, s) == [x] + s;
      FilterCons(x, s, keep);
    } else {
      var rest := Insert(x, s[1..]);
      assert Insert(x, s) == [s[0]] + rest;
      assert !keep(s[0]);
      InsertSameInstant(x, s[1..]);
      assert Filter(rest, keep) == [x] + Filter(s[1..], keep);
      FilterCons(s[0], rest, keep);
      assert Filter([s[0]] + rest, keep) == Filter(rest, keep);
      FilterCons(s[0], s[1..], keep);
      assert s == [s[0]] + s[1..];
      assert Filter(s, keep) == Filter(s[1..], keep);
    }
  }

  /** Stability: users who logged in at the same instant keep their relative order. */
  lemma {:induction false} SortIsStable(s: seq<DirUser>, t: int)
    ensures Filter(SortByRecency(s), LoggedInAt(t)) == Filter(s, LoggedInAt(t))
  {
    if s != [] {
      SortIsStable(s[1..], t);
      if s[0].lastLogin == t {
        InsertSameInstant(s[0], SortByRecency(s[1..]));
      } else {
        InsertOtherInstant(s[0], SortByRecency(s[1..]), t);
      }
    }
  }

  /** The listed users: filtered, marked active or inactive against `now`, most recent login first. */
  function ProcessedUsers(users: seq<DirUser>, searchTerm: string, selectedDepartment: string, now: int): (r: seq<DirUser>)
    ensures SortedByRecency(r)
    ensures |r| <= |users|
  {
    var marked := MarkActivity(Filter(users, Matches(searchTerm, selectedDepartment)), now);
    var r := SortByRecency(marked);
    assert |multiset(r)| == |multiset(marked)|;
    r
  }

  /** `u` is the input user at `k`, matching both filters, marked against `now`. */
  predicate ListedFrom(users: seq<DirUser>, u: DirUser, k: int, searchTerm: string, selectedDepartment: string, now: int) {
    0 <= k < |users| && u == WithActivity(users[k], now)
    && MatchesSearch(users[k], searchTerm) && MatchesDepartment(users[k], selectedDepartment)
  }

  /** The list is ordered by most recent login, is a rearrangement of the marked matching users, and is no longer than the input. */
  lemma ProcessedUsersOrdered(users: seq<DirUser>, searchTerm: string, selectedDepartment: string, now: int)
    ensures SortedByRecency(ProcessedUsers(users, searchTerm, selectedDepartment, now))
    ensures multiset(ProcessedUsers(users, searchTerm, selectedDepartment, now))
         == multiset(MarkActivity(Filter(users, Matches(searchTerm, selectedDepartment)), now))
    ensures |ProcessedUsers(users, searchTerm, selectedDepartment, now)| <= |users|
  {
    var marked := MarkActivity(Filter(users, Matches(searchTerm, selectedDepartment)), now);
    assert |multiset(ProcessedUsers(users, searchTerm, selectedDepartment, now))| == |multiset(marked)|;
  }

  /** Every listed user is a matching input user, marked. */
  lemma ProcessedUsersMatch(users: seq<DirUser>, searchTerm: string, selectedDepartment: string, now: int, i: nat)
    returns (k: nat)
    requires i < |ProcessedUsers(users, searchTerm, selectedDepartment, now)|
    ensures ListedFrom(users, ProcessedUsers(users, searchTerm, selectedDepartment, now)[i], k, searchTerm, selectedDepartment, now)
  {
    var keep := Matches(searchTerm, selectedDepartment);
    var f := Filter(users, keep);
    var marked := MarkActivity(f, now);
    var r := ProcessedUsers(users, searchTerm, selectedDepartment, now);
    assert r[i] in multiset(r);
    assert r[i] in multiset(marked);
    var m :| 0 <= m < |marked| && marked[m] == r[i];
    assert f[m] in users && keep(f[m]);
    k :| 0 <= k < |users| && users[k] == f[m];
  }

  /** Every matching input user is listed, marked. */
  lemma ProcessedUsersComplete(users: seq<DirUser>, searchTerm: string, selectedDepartment: string, now: int, k: nat)
    requires k < |users| && MatchesSearch(users[k], searchTerm) && MatchesDepartment(users[k], selectedDepartment)
    ensures WithActivity(users[k], now) in ProcessedUsers(users, searchTerm, selectedDepartment, now)
  {
    var keep := Matches(searchTerm, selectedDepartment);
    var f := Filter(users, keep);
    var marked := MarkActivity(f, now);
    assert keep(users[k]);
    var m :| 0 <= m < |f| && f[m] == users[k];
    assert marked[m] in multiset(marked);
    assert marked[m] in multiset(ProcessedUsers(users, searchTerm, selectedDepartment, now));
  }

  /** With an empty search and "all" selected, every user is listed. */
  lemma EverythingListedByDefault(users: seq<DirUser>, now: int)
    ensures |ProcessedUsers(users, "", AllDepartments, now)| == |users|
  {
    var keep := Matches("", AllDepartments);
    forall i | 0 <= i < |users| ensures keep(users[i]) {
      ContainsEmpty(ToLower(users[i].name));
    }
    FilterKeepsAll(users, keep);
    var marked := MarkActivity(users, now);
    assert |multiset(SortByRecency(marked))| == |multiset(marked)|;
  }

  /** The activity rule at its boundary: exactly thirty days after the login is already inactive. */
  lemma ActivityBoundary(u: DirUser)
    ensures WithActivity(u, u.lastLogin + ActiveWindowMs - 1).isActive == Some(true)
    ensures WithActivity(u, u.lastLogin + ActiveWindowMs).isActive == Some(false)
  {
  }

  // ---------------------------------------------------------------------------
  // The list's state

  class DirectoryView {
    const users: seq<DirUser>
    const departments: seq<Department>
    const departmentMap: map<string, Department>
    var searchTerm: string
    var selectedDepartment: string

    constructor(users: seq<DirUser>, departments: seq<Department>)
      ensures this.users == users && this.departments == departments
      ensures departmentMap == DepartmentMapOf(departments)
      ensures searchTerm == "" && selectedDepartment == AllDepartments
    {
      this.users := users;
      this.departments := departments;
      var m := BuildDepartmentMap(departments);
      departmentMap := m;
      searchTerm := "";
      selectedDepartment := AllDepartments;
    }

    method EditSearch(term: string)
      modifies this`searchTerm
      ensures searchTerm == term
    {
      searchTerm := term;
    }

    method SelectDepartment(department: string)
      modifies this`selectedDepartment
      ensures selectedDepartment == department
    {
      selectedDepartment := department;
    }

    /** The cards on screen at instant `now`: each listed user with its department label. */
    function Cards(now: int): (r: seq<(DirUser, string)>)
      reads this
      ensures |r| == |ProcessedUsers(users, searchTerm, selectedDepartment, now)|
      ensures forall i :: 0 <= i < |r| ==> r[i].1 == DepartmentLabel(departmentMap, r[i].0.department)
    {
      var listed := ProcessedUsers(users, searchTerm, selectedDepartment, now);
      seq(|listed|, i requires 0 <= i < |listed| => (listed[i], DepartmentLabel(departmentMap, listed[i].department)))
    }

    /** Clicking a card reports that (marked) user to the listener. */
    method SelectUser(now: int, index: nat) returns (selected: DirUser)
      requires index < |Cards(now)|
      ensures selected == ProcessedUsers(users, searchTerm, selectedDepartment, now)[index]
    {
      selected := Cards(now)[index].0;
    }
  }
}
