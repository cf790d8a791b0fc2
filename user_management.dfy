/** The user list of `client/src/components/UserManagement/UserManagement.jsx`:
    the search and the role and status filters, the display name and the
    initials shown on each card, the four stat cards, and the list after a
    user is deleted. */
module UserManagement {
  import opened Base
  import opened Text

  /** A user as the list receives it. A name or an e-mail the record lacks
      is the empty string, which JavaScript treats as falsy just like a
      missing field; the role is absent or a text. `objectId` is `_id`. */
  datatype User = User(
    objectId: string, id: string, username: string,
    firstName: string, lastName: string, email: string,
    role: Option<string>, isActive: bool)

  /** `getUserId`: `_id`, or `id` when `_id` is empty. */
  function UserId(u: User): string {
    if u.objectId != "" then u.objectId else u.id
  }

  /** `getUserDisplayName`: "first last" when both names are present, the
      username otherwise. */
  function DisplayName(u: User): string {
    if u.firstName != "" && u.lastName != "" then u.firstName + " " + u.lastName else u.username
  }

  /** `getInitials`: the first letters of both names, or else the first two
      characters of the username, upper-cased. There are two of them, or as
      many as a shorter username has, and none is a lower-case letter. */
  function Initials(u: User): (r: string)
    ensures |r| == if u.firstName != "" && u.lastName != "" then 2 else Min(2, |u.username|)
    ensures forall i | 0 <= i < |r| :: !IsLowerLetter(r[i])
  {
    UpperProperties(if u.firstName != "" && u.lastName != "" then [u.firstName[0], u.lastName[0]] else u.username[..Min(2, |u.username|)]);
    if u.firstName != "" && u.lastName != "" then Upper([u.firstName[0], u.lastName[0]])
    else Upper(u.username[..Min(2, |u.username|)])
  }

  /** The initials are read off the display name: the letters that start
      its two words when both names are present, its first two characters
      otherwise. */
  lemma InitialsOfDisplayName(u: User)
    ensures u.firstName != "" && u.lastName != "" ==>
      Initials(u) == Upper([DisplayName(u)[0], DisplayName(u)[|u.firstName| + 1]])
    ensures !(u.firstName != "" && u.lastName != "") ==>
      Initials(u) == Upper(DisplayName(u)[..Min(2, |DisplayName(u)|)])
  {
    if u.firstName != "" && u.lastName != "" {
      var d := DisplayName(u);
      assert d[0] == u.firstName[0];
      assert d[|u.firstName| + 1] == u.lastName[0];
    }
  }

  /** The search: the lower-cased term occurs in the lower-cased username,
      in the lower-cased display name, or in the lower-cased e-mail when
      there is one. */
  predicate MatchesSearch(u: User, term: string) {
    || Contains(Lower(u.username), Lower(term))
    || Contains(Lower(DisplayName(u)), Lower(term))
    || (u.email != "" && Contains(Lower(u.email), Lower(term)))
  }

  /** The role filter: 'all', or exactly the user's role. */
  predicate MatchesRole(u: User, roleFilter: string) {
    roleFilter == "all" || (u.role.Some? && u.role.value == roleFilter)
  }

  /** The status filter: 'all', 'active' for an active user, 'inactive' for
      one that is not; any other value keeps nobody. */
  predicate MatchesStatus(u: User, statusFilter: string) {
    || statusFilter == "all"
    || (statusFilter == "active" && u.isActive)
    || (statusFilter == "inactive" && !u.isActive)
  }

  /** The test `filteredUsers` applies to each user. */
  function Kept(term: string, roleFilter: string, statusFilter: string): User -> bool {
    u => MatchesSearch(u, term) && MatchesRole(u, roleFilter) && MatchesStatus(u, statusFilter)
  }

  /** The test without the search. */
  function PassesFilters(roleFilter: string, statusFilter: string): User -> bool {
    u => MatchesRole(u, roleFilter) && MatchesStatus(u, statusFilter)
  }

  /** `filteredUsers`: a user is listed exactly when it matches the search,
      the role filter and the status filter, and is listed no more often
      than it occurs. */
  function FilteredUsers(users: seq<User>, term: string, roleFilter: string, statusFilter: string): (r: seq<User>)
    ensures forall u :: u in r <==>
      u in users && MatchesSearch(u, term) && MatchesRole(u, roleFilter) && MatchesStatus(u, statusFilter)
    ensures multiset(r) <= multiset(users)
  {
    Filter(users, Kept(term, roleFilter, statusFilter))
  }

  /** With an empty search every user that passes the role and status
      filters is listed. */
  lemma {:induction false} EmptySearchKeepsFiltered(users: seq<User>, roleFilter: string, statusFilter: string)
    ensures FilteredUsers(users, "", roleFilter, statusFilter) == Filter(users, PassesFilters(roleFilter, statusFilter))
  {
    assert Lower("") == "";
    forall i | 0 <= i < |users|
      ensures Kept("", roleFilter, statusFilter)(users[i]) == PassesFilters(roleFilter, statusFilter)(users[i])
    {
      ContainsEmpty(Lower(users[i].username));
    }
    FilterSame(users, Kept("", roleFilter, statusFilter), PassesFilters(roleFilter, statusFilter));
  }

  /** Two search terms that differ only in the case of their letters list
      the same users. */
  lemma {:induction false} SearchIgnoresCase(users: seq<User>, term: string, other: string, roleFilter: string, statusFilter: string)
    requires Lower(term) == Lower(other)
    ensures FilteredUsers(users, term, roleFilter, statusFilter) == FilteredUsers(users, other, roleFilter, statusFilter)
  {
    FilterSame(users, Kept(term, roleFilter, statusFilter), Kept(other, roleFilter, statusFilter));
  }

  /** The four stat cards. */
  datatype Stats = Stats(total: nat, active: nat, admins: nat, officers: nat)

  function IsActiveUser(): User -> bool { (u: User) => u.isActive }

  function HasRole(role: string): User -> bool { (u: User) => u.role == Some(role) }

  /** The stat cards count every user, the active ones, the administrators
      and the users with role 'user'; the active users are among all of
      them, and nobody is counted both as an administrator and as an
      officer. */
  function StatsOf(users: seq<User>): (r: Stats)
    ensures r.total == |users|
    ensures r.active <= r.total
    ensures r.admins + r.officers <= r.total
  {
    FilterDisjoint(users, HasRole("admin"), HasRole("user"));
    Stats(|users|, |Filter(users, IsActiveUser())|, |Filter(users, HasRole("admin"))|, |Filter(users, HasRole("user"))|)
  }

  /** The stat cards agree with the list: with an empty search, the status
      filter 'active' lists as many users as the active card counts and
      'inactive' the rest, and the role filters list as many as the
      administrator and officer cards count. */
  lemma {:induction false} StatsAgreeWithFilters(users: seq<User>)
    ensures |FilteredUsers(users, "", "all", "active")| == StatsOf(users).active
    ensures |FilteredUsers(users, "", "all", "inactive")| == StatsOf(users).total - StatsOf(users).active
    ensures |FilteredUsers(users, "", "admin", "all")| == StatsOf(users).admins
    ensures |FilteredUsers(users, "", "user", "all")| == StatsOf(users).officers
  {
    ActiveCardAgrees(users);
    InactiveCardAgrees(users);
    RoleCardAgrees(users, "admin");
    RoleCardAgrees(users, "user");
  }

  /** The status filter 'active' lists the users the active card counts. */
  lemma ActiveCardAgrees(users: seq<User>)
    ensures |FilteredUsers(users, "", "all", "active")| == |Filter(users, IsActiveUser())|
  {
    EmptySearchKeepsFiltered(users, "all", "active");
    forall i | 0 <= i < |users| ensures PassesFilters("all", "active")(users[i]) == IsActiveUser()(users[i]) {
    }
    FilterSame(users, PassesFilters("all", "active"), IsActiveUser());
  }

  /** The status filter 'inactive' lists the users the active card leaves
      out. */
  lemma InactiveCardAgrees(users: seq<User>)
    ensures |FilteredUsers(users, "", "all", "inactive")| == |users| - |Filter(users, IsActiveUser())|
  {
    EmptySearchKeepsFiltered(users, "all", "inactive");
    forall i | 0 <= i < |users| ensures PassesFilters("all", "inactive")(users[i]) == !IsActiveUser()(users[i]) {
    }
    FilterComplement(users, IsActiveUser(), PassesFilters("all", "inactive"));
  }

  /** A role filter lists the users a role card counts. */
  lemma RoleCardAgrees(users: seq<User>, role: string)
    requires role != "all"
    ensures |FilteredUsers(users, "", role, "all")| == |Filter(users, HasRole(role))|
  {
    EmptySearchKeepsFiltered(users, role, "all");
    FilterSame(users, PassesFilters(role, "all"), HasRole(role));
  }

  function NotId(id: string): User -> bool { u => UserId(u) != id }

  /** The list after a delete succeeded: the users with that id are gone
      and every other user stays. */
  function WithoutUser(users: seq<User>, id: string): (r: seq<User>)
    ensures forall u :: u in r <==> u in users && UserId(u) != id
    ensures |r| <= |users|
  {
    Filter(users, NotId(id))
  }

  /** When no two users share an id, deleting one that is listed shortens
      the list by exactly one. */
  lemma {:induction false} DeleteDropsOne(users: seq<User>, id: string)
    requires forall i, j | 0 <= i < j < |users| :: UserId(users[i]) != UserId(users[j])
    requires exists i | 0 <= i < |users| :: UserId(users[i]) == id
    ensures |WithoutUser(users, id)| == |users| - 1
  {
    var rest := users[1..];
    if UserId(users[0]) == id {
      forall i | 0 <= i < |rest| ensures NotId(id)(rest[i]) {
        assert rest[i] == users[i + 1];
      }
      FilterAll(rest, NotId(id));
    } else {
      var i :| 0 <= i < |users| && UserId(users[i]) == id;
      assert rest[i - 1] == users[i];
      DeleteDropsOne(rest, id);
    }
  }

  /** The list with its banners. */
  datatype Page = Page(users: seq<User>, error: string, success: string)

  /** The answer to `DELETE /api/users/:id`: `Done(ok, message)` carries
      `response.ok` and the `message` of the body, if any; `Failed` is a
      network error. */
  datatype DeleteAnswer = Done(ok: bool, message: Option<string>) | Failed

  /** `handleDeleteUser`: nothing happens unless the user confirms; a
      successful delete removes the user from the list and shows a success
      banner; a refused or failed one leaves the list as it was and shows
      an error. */
  function HandleDelete(p: Page, userId: string, username: string, confirmed: bool, answer: DeleteAnswer): (r: Page)
    ensures !confirmed ==> r == p
    ensures confirmed && answer.Done? && answer.ok ==>
      r.users == WithoutUser(p.users, userId) && r.error == "" && r.success != ""
    ensures confirmed && !(answer.Done? && answer.ok) ==>
      r.users == p.users && r.success == "" && r.error != ""
  {
    if !confirmed then p
    else match answer
      case Done(ok, message) =>
        if ok then Page(WithoutUser(p.users, userId), "", "User \"" + username + "\" deleted successfully")
        else Page(p.users, if message.Some? && message.value != "" then message.value else "Failed to delete user", "")
      case Failed => Page(p.users, "Failed to delete user", "")
  }
}
