/**
 * The user-management page: a user list shown five at a time, Previous/Next and
 * page-number buttons, the add-user form with its validator, and delete.
 */
module UserManagement {
  import opened Base
  import opened Text

  datatype User = User(id: int, firstName: string, lastName: string, email: string,
                       role: string, status: string, joinDate: string)

  /** The form fields the page keeps (`files` is only ever reset to empty and is not kept). */
  datatype FormData = FormData(firstName: string, lastName: string, email: string,
                               role: string, country: string, startDate: string)

  /** The keys of the error record that `validateForm` fills. */
  datatype Field = FirstName | LastName | Email | Role

  const UsersPerPage: nat := 5
  const EmptyForm: FormData := FormData("", "", "", "", "", "")
  const FirstNameRequired: string := "First name is required"
  const LastNameRequired: string := "Last name is required"
  const EmailRequired: string := "Email is required"
  const EmailInvalid: string := "Email is invalid"
  const RoleRequired: string := "Role is required"

  // ---------------------------------------------------------------------------
  // Paging

  /** `Math.ceil(count / 5)`. */
  function TotalPages(count: int): (r: int)
    ensures (r - 1) * UsersPerPage < count <= r * UsersPerPage
  {
    CeilDiv(count, UsersPerPage)
  }

  /** The index `Array.prototype.slice` uses for a possibly negative argument. */
  function SliceIndex(i: int, length: nat): (r: nat)
    ensures r <= length
    ensures 0 <= i ==> r == Min(i, length)
    ensures i < 0 ==> r == Max(length + i, 0)
  {
    if i < 0 then Max(length + i, 0) else Min(i, length)
  }

  /** `s.slice(start, end)`, negative arguments counting from the end. */
  function Slice<T>(s: seq<T>, start: int, end: int): (r: seq<T>)
    ensures var from, to := SliceIndex(start, |s|), SliceIndex(end, |s|);
      if from < to then r == s[from..to] else r == []
  {
    var from, to := SliceIndex(start, |s|), SliceIndex(end, |s|);
    if from < to then s[from..to] else []
  }

  /** `currentUsers`: the slice from `(currentPage - 1) * 5` to `(currentPage - 1) * 5 + 5`. */
  function VisibleUsers(users: seq<User>, currentPage: int): (r: seq<User>)
    ensures |r| <= UsersPerPage
    ensures forall i :: 0 <= i < |r| ==> r[i] in users
  {
    var start := (currentPage - 1) * UsersPerPage;
    Slice(users, start, start + UsersPerPage)
  }

  /** For a page number of at least 1, the visible rows are the page's at most five users, in list order. */
  lemma VisibleUsersArePage(users: seq<User>, currentPage: int)
    requires currentPage >= 1
    ensures var start := (currentPage - 1) * UsersPerPage;
      && VisibleUsers(users, currentPage) == users[Min(start, |users|)..Min(start + UsersPerPage, |users|)]
      && |VisibleUsers(users, currentPage)| <= UsersPerPage
      && forall i :: 0 <= i < |VisibleUsers(users, currentPage)| ==> VisibleUsers(users, currentPage)[i] == users[start + i]
  {
  }

  /** "Showing {startIndex + 1} to {Math.min(endIndex, users.length)} of {users.length} results". */
  function ShowingRange(userCount: nat, currentPage: int): (r: (int, int))
    ensures r.0 == (currentPage - 1) * UsersPerPage + 1
    ensures r.1 == Min(currentPage * UsersPerPage, userCount)
  {
    ((currentPage - 1) * UsersPerPage + 1, Min((currentPage - 1) * UsersPerPage + UsersPerPage, userCount))
  }

  /** On an in-range page the "Showing" line counts exactly the rows on screen, within the list. */
  lemma ShowingRangeMatchesVisible(users: seq<User>, currentPage: int)
    requires |users| > 0 && 1 <= currentPage <= TotalPages(|users|)
    ensures var r := ShowingRange(|users|, currentPage);
      1 <= r.0 <= r.1 <= |users| && r.1 - r.0 + 1 == |VisibleUsers(users, currentPage)|
  {
    VisibleUsersArePage(users, currentPage);
  }

  /** `handlePreviousPage`: one page back, never below 1. */
  function PreviousPage(currentPage: int): (r: int)
    ensures r >= 1
    ensures currentPage > 1 ==> r == currentPage - 1
    ensures currentPage <= 1 ==> r == 1
  {
    Max(currentPage - 1, 1)
  }

  /** `handleNextPage`: one page forward, never past the last page. */
  function NextPage(currentPage: int, userCount: nat): (r: int)
    ensures r <= TotalPages(userCount)
    ensures currentPage < TotalPages(userCount) ==> r == currentPage + 1
    ensures currentPage >= TotalPages(userCount) ==> r == TotalPages(userCount)
  {
    Min(currentPage + 1, TotalPages(userCount))
  }

  /** `disabled={currentPage === 1}` on Previous. */
  predicate PreviousDisabled(currentPage: int)
    ensures currentPage >= 1 ==> (PreviousDisabled(currentPage) <==> PreviousPage(currentPage) == currentPage)
  {
    currentPage == 1
  }

  /** `disabled={currentPage === totalPages}` on Next. */
  predicate NextDisabled(currentPage: int, userCount: nat)
    ensures currentPage <= TotalPages(userCount) ==>
      (NextDisabled(currentPage, userCount) <==> NextPage(currentPage, userCount) == currentPage)
  {
    currentPage == TotalPages(userCount)
  }

  /** The page-number buttons: `Array.from({ length: totalPages }, (_, i) => i + 1)`. */
  function PageButtons(userCount: nat): (r: seq<int>)
    ensures |r| == Max(TotalPages(userCount), 0)
    ensures forall i :: 0 <= i < |r| ==> r[i] == i + 1
  {
    var n := Max(TotalPages(userCount), 0);
    seq(n, i requires 0 <= i < n => i + 1)
  }

  /** The page buttons are exactly the pages 1..totalPages, strictly ascending. */
  lemma PageButtonsAscending(userCount: nat)
    ensures var b := PageButtons(userCount);
      && (forall i, j :: 0 <= i < j < |b| ==> b[i] < b[j])
      && (forall n :: 1 <= n <= TotalPages(userCount) ==> n in b)
  {
    var b := PageButtons(userCount);
    forall n | 1 <= n <= TotalPages(userCount) ensures n in b {
      assert b[n - 1] == n;
    }
  }

  /** An enabled Previous or Next button moves exactly one page within `[1, totalPages]`. */
  lemma EnabledButtonsMoveOnePage(currentPage: int, userCount: nat)
    requires 1 <= currentPage <= TotalPages(userCount)
    ensures !PreviousDisabled(currentPage) ==> PreviousPage(currentPage) == currentPage - 1 >= 1
    ensures !NextDisabled(currentPage, userCount) ==> NextPage(currentPage, userCount) == currentPage + 1 <= TotalPages(userCount)
  {
  }

  /**
   * With no users the Next button is enabled on page 1 (`totalPages` is 0) and moves the page to 0;
   * a user added afterwards is then not on the visible slice.
   */
  lemma NextOnEmptyListReachesPageZero(u: User)
    ensures !NextDisabled(1, 0) && NextPage(1, 0) == 0
    ensures VisibleUsers([u], 0) == []
  {
  }

  // ---------------------------------------------------------------------------
  // Form validation

  /** `/\S+@\S+\.\S+/.test(email)`: a non-blank run, `@`, a non-blank run, `.`, a non-blank character, somewhere in `email`. */
  predicate EmailShaped(email: string)
    ensures EmailShaped(email) ==> |email| >= 5 && !IsBlank(email)
  {
    exists at, dot :: 0 <= at < |email| && 0 <= dot < |email| && ShapedAt(email, at, dot)
  }

  /** The match of the pattern whose `@` is at `at` and whose `.` is at `dot`. */
  predicate ShapedAt(email: string, at: int, dot: int) {
    && 0 < at && at + 1 < dot && dot + 1 < |email|
    && email[at] == '@' && email[dot] == '.'
    && !IsWhitespace(email[at - 1]) && !IsWhitespace(email[dot + 1])
    && NoWhitespaceBetween(email, at, dot)
  }

  /** No white space strictly between positions `lo` and `hi`. */
  predicate NoWhitespaceBetween(s: string, lo: int, hi: int)
    requires 0 <= lo <= hi <= |s|
  {
    forall k :: lo < k < hi ==> !IsWhitespace(s[k])
  }

  /** The email error, if any: "required" for a blank value, else "invalid" when the shape check fails. */
  function EmailError(email: string): (r: Option<string>)
    ensures IsBlank(email) ==> r == Some(EmailRequired)
    ensures !IsBlank(email) ==> (r.None? <==> EmailShaped(email)) && (r.Some? ==> r.value == EmailInvalid)
  {
    TrimEmptyIffBlank(email);
    if Trim(email) == "" then Some(EmailRequired)
    else if !EmailShaped(email) then Some(EmailInvalid)
    else None
  }

  /** The error record `validateForm` builds, one entry per failing field. */
  function FormErrors(form: FormData): (e: map<Field, string>)
    ensures FirstName in e <==> IsBlank(form.firstName)
    ensures LastName in e <==> IsBlank(form.lastName)
    ensures Email in e <==> EmailError(form.email).Some?
    ensures Role in e <==> form.role == ""
    ensures FirstName in e ==> e[FirstName] == FirstNameRequired
    ensures LastName in e ==> e[LastName] == LastNameRequired
    ensures Email in e ==> e[Email] == EmailError(form.email).value
    ensures Role in e ==> e[Role] == RoleRequired
  {
    TrimEmptyIffBlank(form.firstName);
    TrimEmptyIffBlank(form.lastName);
    var e0: map<Field, string> := map[];
    var e1 := if Trim(form.firstName) == "" then e0[FirstName := FirstNameRequired] else e0;
    var e2 := if Trim(form.lastName) == "" then e1[LastName := LastNameRequired] else e1;
    var e3 := match EmailError(form.email) case Some(msg) => e2[Email := msg] case None => e2;
    if form.role == "" then e3[Role := RoleRequired] else e3
  }

  /** The form is valid exactly when both names are non-blank, the email is non-blank and shaped, and a role is chosen. */
  lemma FormValidIff(form: FormData)
    ensures |FormErrors(form)| == 0 <==>
      !IsBlank(form.firstName) && !IsBlank(form.lastName) && !IsBlank(form.email)
      && EmailShaped(form.email) && form.role != ""
  {
    var e := FormErrors(form);
    if |e| == 0 {
      assert e == map[];
    } else {
      var f :| f in e;
    }
  }

  /** A blank email is never reported as invalid, only as missing. */
  lemma BlankEmailIsRequiredNotInvalid(form: FormData)
    requires IsBlank(form.email)
    ensures FormErrors(form)[Email] == EmailRequired
  {
  }

  /** Examples of the shape check. */
  lemma EmailShapeExamples()
    ensures EmailShaped("john@example.com")
    ensures !EmailShaped("john@example")
    ensures !EmailShaped("a@.c")
  {
    var s := "john@example.com";
    assert NoWhitespaceBetween(s, 4, 12);
    assert ShapedAt(s, 4, 12);
    var t := "john@example";
    assert forall k :: 0 <= k < |t| ==> t[k] != '.';
    var u := "a@.c";
    assert forall k :: 0 <= k < |u| && u[k] == '.' ==> k == 2;
    assert forall k :: 0 <= k < |u| && u[k] == '@' ==> k == 1;
  }

  /** The user `handleFormSubmit` creates; `today` stands for `new Date()` formatted as a date. */
  function NewUser(id: int, form: FormData, today: string): (u: User)
    ensures u.id == id && u.status == "active"
    ensures u.firstName == form.firstName && u.lastName == form.lastName && u.email == form.email && u.role == form.role
    ensures u.joinDate == if form.startDate != "" then form.startDate else today
  {
    User(id, form.firstName, form.lastName, form.email, form.role, "active",
         if form.startDate != "" then form.startDate else today)
  }

  /** `users.filter(user => user.id !== userId)`. */
  function WithoutUser(users: seq<User>, id: int): (r: seq<User>)
    ensures |r| <= |users|
    ensures forall i :: 0 <= i < |r| ==> r[i].id != id && r[i] in users
    ensures forall i :: 0 <= i < |users| && users[i].id != id ==> users[i] in r
  {
    Filter(users, (u: User) => u.id != id)
  }

  /** Deleting keeps the list order: it commutes with splitting the list. */
  lemma WithoutUserKeepsOrder(a: seq<User>, b: seq<User>, id: int)
    ensures WithoutUser(a + b, id) == WithoutUser(a, id) + WithoutUser(b, id)
  {
    FilterConcat(a, b, (u: User) => u.id != id);
  }

  /** Deleting an id no user has leaves the list as it is. */
  lemma WithoutAbsentUser(users: seq<User>, id: int)
    requires forall i :: 0 <= i < |users| ==> users[i].id != id
    ensures WithoutUser(users, id) == users
  {
    FilterKeepsAll(users, (u: User) => u.id != id);
  }

  /** The page `handleDeleteUser` moves to: `Math.ceil((users.length - 1) / 5)` when the current page is past it and it is positive. */
  function PageAfterDelete(currentPage: int, userCount: nat): (r: int)
    ensures var n := CeilDiv(userCount - 1, UsersPerPage);
      if currentPage > n && n > 0 then r == n else r == currentPage
  {
    var n := CeilDiv(userCount - 1, UsersPerPage);
    if currentPage > n && n > 0 then n else currentPage
  }

  /** When the deleted id was held by exactly one user, an in-range page stays in range for the shorter list. */
  lemma DeleteKeepsPageInRange(currentPage: int, userCount: nat)
    requires userCount >= 2
    requires 1 <= currentPage <= TotalPages(userCount)
    ensures 1 <= PageAfterDelete(currentPage, userCount) <= TotalPages(userCount - 1)
  {
  }

  /** New ids are `users.length + 1`, so after a deletion a new user can share the id of an existing one. */
  lemma NewIdCanRepeatAfterDelete(form: FormData, today: string)
    ensures var users := [NewUser(1, form, today), NewUser(2, form, today)];
      var afterDelete := WithoutUser(users, 1);
      var added := afterDelete + [NewUser(|afterDelete| + 1, form, today)];
      |added| == 2 && added[0].id == added[1].id == 2
  {
    var users := [NewUser(1, form, today), NewUser(2, form, today)];
    assert WithoutUser(users, 1) == [users[1]];
  }

  // ---------------------------------------------------------------------------
  // The page state

  class UserManagementPage {
    var isModalOpen: bool
    var users: seq<User>
    var currentPage: int
    var formData: FormData
    var formErrors: map<Field, string>

    constructor(initialUsers: seq<User>)
      ensures users == initialUsers && currentPage == 1
      ensures formData == EmptyForm && formErrors == map[] && !isModalOpen
    {
      isModalOpen := false;
      users := initialUsers;
      currentPage := 1;
      formData := EmptyForm;
      formErrors := map[];
    }

    /** `validateForm`: fills the error record field by field, stores it, and reports whether it is empty. */
    method ValidateForm() returns (valid: bool)
      modifies this`formErrors
      ensures formErrors == FormErrors(formData)
      ensures valid <==> |formErrors| == 0
    {
      var errors: map<Field, string> := map[];
      if Trim(formData.firstName) == "" {
        errors := errors[FirstName := FirstNameRequired];
      }
      if Trim(formData.lastName) == "" {
        errors := errors[LastName := LastNameRequired];
      }
      if Trim(formData.email) == "" {
        errors := errors[Email := EmailRequired];
      } else if !EmailShaped(formData.email) {
        errors := errors[Email := EmailInvalid];
      }
      if formData.role == "" {
        errors := errors[Role := RoleRequired];
      }
      formErrors := errors;
      valid := |errors| == 0;
    }

    /** `handleFormSubmit`: a valid form appends one user, closes the modal and resets the form; an invalid one only records its errors. */
    method SubmitForm(today: string) returns (added: bool)
      modifies this
      ensures added <==> |FormErrors(old(formData))| == 0
      ensures added ==> users == old(users) + [NewUser(|old(users)| + 1, old(formData), today)]
      ensures added ==> !isModalOpen && formData == EmptyForm && formErrors == map[]
      ensures !added ==> users == old(users) && formData == old(formData) && isModalOpen == old(isModalOpen)
      ensures !added ==> formErrors == FormErrors(old(formData))
      ensures currentPage == old(currentPage)
    {
      added := ValidateForm();
      if added {
        users := users + [NewUser(|users| + 1, formData, today)];
        isModalOpen := false;
        formData := EmptyForm;
        formErrors := map[];
      }
    }

    /** `handleDeleteUser`: removes every user with that id and pulls the page back when it would be past the end. */
    method DeleteUser(id: int)
      modifies this`users, this`currentPage
      ensures users == WithoutUser(old(users), id)
      ensures currentPage == PageAfterDelete(old(currentPage), |old(users)|)
    {
      var newTotalPages := CeilDiv(|users| - 1, UsersPerPage);
      users := WithoutUser(users, id);
      if currentPage > newTotalPages && newTotalPages > 0 {
        currentPage := newTotalPages;
      }
    }

    method GoToPreviousPage()
      modifies this`currentPage
      ensures currentPage == PreviousPage(old(currentPage))
    {
      currentPage := Max(currentPage - 1, 1);
    }

    method GoToNextPage()
      modifies this`currentPage
      ensures currentPage == NextPage(old(currentPage), |users|)
    {
      currentPage := Min(currentPage + 1, TotalPages(|users|));
    }

    /** A page-number button: `setCurrentPage(page)`. */
    method GoToPage(page: int)
      modifies this`currentPage
      ensures currentPage == page
    {
      currentPage := page;
    }

    /** The "Add New User" button. */
    method OpenModal()
      modifies this`isModalOpen
      ensures isModalOpen
    {
      isModalOpen := true;
    }

    /** A form field's `onChange`: replaces the form data. */
    method EditForm(form: FormData)
      modifies this`formData
      ensures formData == form
    {
      formData := form;
    }
  }
}
