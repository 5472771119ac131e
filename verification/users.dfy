/**
 User accounts: the user schema, the create/edit form with its password rule, the
 user list (search, role filter, creation-date sort), the status and role counts,
 the block toggle, and delete.
 */
module Users {
  import opened Wrappers
  import opened Store
  import Seqs
  import Text

  // ---------------------------------------------------------------- the schema

  /** The values `getUserSchema` is given; role and status are still the raw enum strings. */
  datatype UserFormValues = UserFormValues(
    username: string,
    password: Option<string>,
    displayName: string,
    role: string,
    status: string,
    profileImage: Option<string>)

  function ParseRole(s: string): (r: Option<Role>)
    ensures r.Some? <==> s == "admin" || s == "user"
    ensures r.Some? ==> r.value.Name() == s
  {
    if s == "admin" then Some(Admin) else if s == "user" then Some(RegularUser) else None
  }

  function ParseStatus(s: string): (r: Option<UserStatus>)
    ensures r.Some? <==> s == "active" || s == "blocked"
    ensures r.Some? ==> r.value.Name() == s
  {
    if s == "active" then Some(UserStatus.Active) else if s == "blocked" then Some(UserStatus.Blocked) else None
  }

  /** `min(6).optional().or(z.literal(''))`: absent, empty, or six UTF-16 code units or more. */
  predicate PasswordAccepted(p: Option<string>)
  {
    p.None? || p.value == "" || Text.Utf16Length(p.value) >= 6
  }

  predicate UserValid(v: UserFormValues)
  {
    && Text.Utf16Length(v.username) >= 3
    && PasswordAccepted(v.password)
    && Text.Utf16Length(v.displayName) >= 2
    && ParseRole(v.role).Some?
    && ParseStatus(v.status).Some?
  }

  // ---------------------------------------------------------------- the form

  /**
   The form's opening values: those of the edited user, else empty texts with role
   `user` and status `active`; the password always starts empty.
   */
  function Defaults(user: Option<User>): (v: UserFormValues)
    ensures v.password == Some("")
    ensures user.None? ==> v == UserFormValues("", Some(""), "", "user", "active", Some(""))
    ensures user.Some? ==>
      && v.username == user.value.username && v.displayName == user.value.displayName
      && v.role == user.value.role.Name() && v.status == user.value.status.Name()
      && v.profileImage == Some(user.value.profileImage.GetOr(""))
  {
    match user
    case None => UserFormValues("", Some(""), "", "user", "active", Some(""))
    case Some(u) => UserFormValues(u.username, Some(""), u.displayName, u.role.Name(), u.status.Name(), Some(u.profileImage.GetOr("")))
  }

  /** What the submit leads to, as the dialog sees it. */
  datatype Outcome =
    | Invalid           // the schema refused the values; `onSubmit` never ran
    | PasswordRequired  // creating without a password: a field error, nothing written
    | Saved(reset: bool)
    | Failed            // the write threw; the error is logged

  /** The stored record after an edit: the edited fields, and the password only when a new one is given. */
  function Edited(stored: User, v: UserFormValues, now: int): (r: User)
    requires UserValid(v)
    ensures r.username == v.username && r.displayName == v.displayName
    ensures r.role.Name() == v.role && r.status.Name() == v.status
    ensures r.profileImage == v.profileImage && r.updatedAt == now
    ensures r.createdAt == stored.createdAt
    ensures Truthy(v.password) ==> r.password == v.password.value
    ensures !Truthy(v.password) ==> r.password == stored.password
  {
    User(v.username, if Truthy(v.password) then v.password.value else stored.password, v.displayName,
         ParseRole(v.role).value, ParseStatus(v.status).value, v.profileImage, stored.createdAt, now)
  }

  /** The record a create adds: the password as given, an empty image as absent. */
  function Created(v: UserFormValues, now: int): (r: User)
    requires UserValid(v) && Truthy(v.password)
    ensures r.username == v.username && r.password == v.password.value && r.displayName == v.displayName
    ensures r.role.Name() == v.role && r.status.Name() == v.status
    ensures r.profileImage == NonEmpty(v.profileImage)
    ensures r.createdAt == now && r.updatedAt == now
  {
    User(v.username, v.password.value, v.displayName, ParseRole(v.role).value, ParseStatus(v.status).value,
         NonEmpty(v.profileImage), now, now)
  }

  /** `onSubmit`: edit when a user key is given, create otherwise. */
  function Submit(db: Db, editing: Option<nat>, v: UserFormValues, now: int, fails: bool): (res: (Db, Outcome))
    requires Valid(db.users)
    ensures var (r, out) := res;
      && Valid(r.users)
      && r.(users := db.users) == db
      && (!UserValid(v) ==> r == db && out == Invalid)
      && (UserValid(v) && editing.None? && !Truthy(v.password) ==> r == db && out == PasswordRequired)
      && (UserValid(v) && fails && (editing.Some? || Truthy(v.password)) ==> r == db && out == Failed)
      && (UserValid(v) && !fails && editing.Some? ==>
            && out == Saved(false)
            && (editing.value in db.users.rows ==>
                  r.users.rows == db.users.rows[editing.value := Edited(db.users.rows[editing.value], v, now)])
            && (editing.value !in db.users.rows ==> r == db))
      && (UserValid(v) && !fails && editing.None? && Truthy(v.password) ==>
            && out == Saved(true)
            && db.users.nextId !in db.users.rows
            && r.users.rows == db.users.rows[db.users.nextId := Created(v, now)])
  {
    if !UserValid(v) then (db, Invalid)
    else if editing.Some? then
      if fails then (db, Failed)
      else
        var users := match Get(db.users, editing.value)
          case None => db.users
          case Some(u) => Update(db.users, editing.value, Edited(u, v, now));
        (db.(users := users), Saved(false))
    else if !Truthy(v.password) then (db, PasswordRequired)
    else if fails then (db, Failed)
    else (db.(users := Insert(db.users, Created(v, now)).0), Saved(true))
  }

  /** Editing with the password left empty never changes the stored password. */
  lemma EditKeepsPassword(db: Db, id: nat, v: UserFormValues, now: int)
    requires Valid(db.users) && id in db.users.rows
    requires UserValid(v) && !Truthy(v.password)
    ensures Submit(db, Some(id), v, now, false).0.users.rows[id].password == db.users.rows[id].password
  {
  }

  /** Editing a user with the values the form opens with changes only the timestamp, the image aside. */
  lemma EditWithDefaults(db: Db, id: nat, now: int)
    requires Valid(db.users) && id in db.users.rows
    requires UserValid(Defaults(Some(db.users.rows[id])))
    ensures var u := db.users.rows[id];
      Submit(db, Some(id), Defaults(Some(u)), now, false).0.users.rows[id]
        == u.(profileImage := Some(u.profileImage.GetOr("")), updatedAt := now)
  {
    var u := db.users.rows[id];
    assert ParseRole(u.role.Name()).value == u.role;
    assert ParseStatus(u.status.Name()).value == u.status;
  }

  /** The form is reset exactly when a new user was stored. */
  lemma ResetOnlyAfterCreate(db: Db, editing: Option<nat>, v: UserFormValues, now: int, fails: bool)
    requires Valid(db.users)
    ensures var (r, out) := Submit(db, editing, v, now, fails);
      (out.Saved? && out.reset) <==> (editing.None? && r.users.rows.Keys == db.users.rows.Keys + {db.users.nextId})
  {
  }

  /** A password one to five UTF-16 code units long is refused by the schema, so nothing is written. */
  lemma ShortPasswordRejected(db: Db, editing: Option<nat>, v: UserFormValues, now: int, fails: bool)
    requires Valid(db.users)
    requires v.password.Some? && 1 <= Text.Utf16Length(v.password.value) <= 5
    ensures Submit(db, editing, v, now, fails) == (db, Invalid)
  {
  }

  /** Three emoji are six code units, so the schema accepts them as a password. */
  lemma EmojiPasswordAccepted()
    ensures PasswordAccepted(Some("\U{1F600}\U{1F600}\U{1F600}"))
  {
    Text.Utf16LengthAstral("\U{1F600}\U{1F600}\U{1F600}");
  }

  /** With the other fields valid, a create stores a password of six code units or more as given. */
  lemma LongPasswordStored(db: Db, v: UserFormValues, now: int)
    requires Valid(db.users)
    requires Text.Utf16Length(v.username) >= 3 && Text.Utf16Length(v.displayName) >= 2
    requires ParseRole(v.role).Some? && ParseStatus(v.status).Some?
    requires v.password.Some? && Text.Utf16Length(v.password.value) >= 6
    ensures var (r, out) := Submit(db, None, v, now, false);
      && out == Saved(true)
      && r.users.rows[db.users.nextId].password == v.password.value
  {
  }

  // ---------------------------------------------------------------- the list

  datatype ListState = ListState(searchQuery: string, roleFilter: string, sortOrder: string)

  predicate UserSearchMatches(u: User, query: string)
  {
    var q := Text.Lower(query);
    query == "" || Text.Contains(Text.Lower(u.username), q) || Text.Contains(Text.Lower(u.displayName), q)
  }

  predicate RoleMatches(u: User, roleFilter: string)
  {
    roleFilter == "all" || u.role.Name() == roleFilter
  }

  /** `"newest"` orders by creation date descending, any other order ascending. */
  function CreatedLe(sortOrder: string): (Row<User>, Row<User>) -> bool
  {
    if sortOrder == "newest" then (a: Row<User>, b: Row<User>) => b.rec.createdAt <= a.rec.createdAt
    else (a: Row<User>, b: Row<User>) => a.rec.createdAt <= b.rec.createdAt
  }

  lemma CreatedLeTotal(sortOrder: string)
    ensures Seqs.TotalPreorder(CreatedLe(sortOrder))
  {
  }

  /** The stored users that pass the search and the role filter, in key order. */
  function MatchingUsers(db: Db, s: ListState): (r: seq<Row<User>>)
    requires Valid(db.users)
    ensures forall row: Row<User> :: row in r <==>
      && row.id in db.users.rows && db.users.rows[row.id] == row.rec
      && UserSearchMatches(row.rec, s.searchQuery) && RoleMatches(row.rec, s.roleFilter)
    ensures Seqs.NoRepeats(r)
  {
    var all := Rows(db.users);
    RowsAscending(db.users);
    AscendingNoRepeats(all);
    assert forall row: Row<User> :: row in all <==> row.id in db.users.rows && db.users.rows[row.id] == row.rec by {
      forall row: Row<User> | row.id in db.users.rows && db.users.rows[row.id] == row.rec
        ensures row in all
      {
        assert Row(row.id, db.users.rows[row.id]) in all;
      }
    }
    var searched := Seqs.Filter(all, (row: Row<User>) => UserSearchMatches(row.rec, s.searchQuery));
    Seqs.SubNoRepeats(searched, all);
    var r := Seqs.Filter(searched, (row: Row<User>) => RoleMatches(row.rec, s.roleFilter));
    Seqs.SubNoRepeats(r, searched);
    r
  }

  /** The user list's live query: search, then role filter, then the date sort. */
  function ListUsers(db: Db, s: ListState): (r: seq<Row<User>>)
    requires Valid(db.users)
    ensures forall row: Row<User> :: row in r <==>
      && row.id in db.users.rows && db.users.rows[row.id] == row.rec
      && UserSearchMatches(row.rec, s.searchQuery) && RoleMatches(row.rec, s.roleFilter)
    ensures Seqs.Sorted(r, CreatedLe(s.sortOrder))
    ensures multiset(r) == multiset(MatchingUsers(db, s))
    ensures Seqs.NoRepeats(r)
  {
    var filtered := MatchingUsers(db, s);
    CreatedLeTotal(s.sortOrder);
    Seqs.SortSameElements(filtered, CreatedLe(s.sortOrder));
    Seqs.Sort(filtered, CreatedLe(s.sortOrder))
  }

  // ---------------------------------------------------------------- counts

  function StatusCount(db: Db, status: UserStatus): nat
    requires Valid(db.users)
  {
    Seqs.Count(Rows(db.users), (row: Row<User>) => row.rec.status == status)
  }

  function RoleCount(db: Db, role: Role): nat
    requires Valid(db.users)
  {
    Seqs.Count(Rows(db.users), (row: Row<User>) => row.rec.role == role)
  }

  /** Active and blocked users add up to all users, and so do admins and regular users. */
  lemma CountsPartition(db: Db)
    requires Valid(db.users)
    ensures StatusCount(db, UserStatus.Active) + StatusCount(db, UserStatus.Blocked) == |db.users.rows|
    ensures RoleCount(db, Admin) + RoleCount(db, RegularUser) == |db.users.rows|
  {
    RowsCount(db.users);
    Seqs.CountPartition2(Rows(db.users),
      (row: Row<User>) => row.rec.status == UserStatus.Active,
      (row: Row<User>) => row.rec.status == UserStatus.Blocked);
    Seqs.CountPartition2(Rows(db.users),
      (row: Row<User>) => row.rec.role == Admin,
      (row: Row<User>) => row.rec.role == RegularUser);
  }

  // ---------------------------------------------------------------- block and delete

  /** The status a toggle writes: the card's active becomes blocked, anything else active. */
  function Toggled(status: UserStatus): (r: UserStatus)
    ensures r != status
  {
    if status == UserStatus.Active then UserStatus.Blocked else UserStatus.Active
  }

  /**
   `handleBlockToggle` on the card showing `card`: the new status is computed from the
   card's copy of the user, and only `status` is written onto the stored record; Dexie's
   `update` on a key that is gone writes nothing.
   */
  function BlockToggle(db: Db, id: nat, card: User): (r: Db)
    ensures id !in db.users.rows ==> r == db
    ensures id in db.users.rows ==>
      && r.users.rows.Keys == db.users.rows.Keys
      && r.users.rows[id].status == Toggled(card.status)
      && r.users.rows[id].(status := db.users.rows[id].status) == db.users.rows[id]
      && forall k :: k in db.users.rows && k != id ==> r.users.rows[k] == db.users.rows[k]
    ensures r.users.nextId == db.users.nextId
    ensures r.(users := db.users) == db
  {
    match Get(db.users, id)
    case None => db
    case Some(u) => db.(users := Update(db.users, id, u.(status := Toggled(card.status))))
  }

  /** When the card shows the stored record each time, toggling twice restores the store. */
  lemma BlockToggleTwice(db: Db, id: nat)
    requires id in db.users.rows
    ensures var r := BlockToggle(db, id, db.users.rows[id]);
      BlockToggle(r, id, r.users.rows[id]) == db
  {
    var u := db.users.rows[id];
    var r := BlockToggle(db, id, u);
    assert r.users.rows[id].(status := u.status) == u;
    assert BlockToggle(r, id, r.users.rows[id]).users.rows == db.users.rows;
  }

  /** A card whose status is already out of date writes back the stored status: nothing changes. */
  lemma BlockToggleStaleCard(db: Db, id: nat, card: User)
    requires id in db.users.rows && card.status != db.users.rows[id].status
    ensures BlockToggle(db, id, card) == db
  {
    var u := db.users.rows[id];
    assert u.(status := Toggled(card.status)) == u;
    assert BlockToggle(db, id, card).users.rows == db.users.rows;
  }

  /** Toggling again from the same, not yet refreshed, card changes nothing more. */
  lemma BlockToggleSameCard(db: Db, id: nat, card: User)
    ensures BlockToggle(BlockToggle(db, id, card), id, card) == BlockToggle(db, id, card)
  {
    if id in db.users.rows {
      var r := BlockToggle(db, id, card);
      assert r.users.rows[id].(status := Toggled(card.status)) == r.users.rows[id];
      assert BlockToggle(r, id, card).users.rows == r.users.rows;
    }
  }

  /** Blocking moves a user from one status count to the other; the total is unchanged. */
  lemma BlockToggleKeepsTotal(db: Db, id: nat, card: User)
    requires Valid(db.users)
    ensures var r := BlockToggle(db, id, card);
      && Valid(r.users)
      && StatusCount(r, UserStatus.Active) + StatusCount(r, UserStatus.Blocked) == |db.users.rows|
  {
    CountsPartition(BlockToggle(db, id, card));
  }

  /** `handleDelete`: removes that user and nothing else; a failure writes nothing. */
  function DeleteUser(db: Db, id: nat, fails: bool): (r: Db)
    ensures fails ==> r == db
    ensures !fails ==> id !in r.users.rows && r.users.nextId == db.users.nextId
    ensures forall k :: k != id ==> (k in r.users.rows <==> k in db.users.rows)
    ensures forall k :: k != id && k in r.users.rows ==> r.users.rows[k] == db.users.rows[k]
    ensures r.(users := db.users) == db
  {
    if fails then db else db.(users := Delete(db.users, id))
  }

  /** A deleted user disappears from every list view. */
  lemma DeletedUserNotListed(db: Db, id: nat, s: ListState)
    requires Valid(db.users)
    ensures var r := DeleteUser(db, id, false);
      Valid(r.users) && forall row :: row in ListUsers(r, s) ==> row.id != id
  {
  }
}
