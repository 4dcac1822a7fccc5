/** The user registry and the per-user data, kept in a key-value store: the list
    of users, the current user's id and one data record per user. */
module UserStore {
  import opened Options
  import opened Records
  import opened ListEdits

  const UsersKey := "budget-calendar-users"
  const CurrentUserKey := "budget-calendar-current-user"

  function UserDataKey(userId: string): string {
    "budget-calendar-user-" + userId
  }

  /** No user's data key is the registry key or the current-user key. */
  lemma KeysDistinct(userId: string)
    ensures UserDataKey(userId) != UsersKey && UserDataKey(userId) != CurrentUserKey
  {
    assert UserDataKey(userId)[20] == '-' != UsersKey[20];
    assert UserDataKey(userId)[16] == 'u' != CurrentUserKey[16];
  }

  /** Different users have different data keys. */
  lemma DataKeyInjective(a: string, b: string)
    ensures UserDataKey(a) == UserDataKey(b) <==> a == b
  {
    var p := "budget-calendar-user-";
    if UserDataKey(a) == UserDataKey(b) {
      assert a == UserDataKey(a)[|p|..] && b == UserDataKey(b)[|p|..];
    }
  }

  /** What one key holds, already decoded (the text encoding is not modelled). */
  datatype Entry = UsersEntry(users: seq<User>) | CurrentEntry(id: string) | DataEntry(data: AppUserData)

  type Entries = map<string, Entry>

  /** The registered users; nothing stored reads as no users. */
  function UsersIn(m: Entries): seq<User> {
    if UsersKey in m && m[UsersKey].UsersEntry? then m[UsersKey].users else []
  }

  function CurrentIn(m: Entries): Option<string> {
    if CurrentUserKey in m && m[CurrentUserKey].CurrentEntry? then Some(m[CurrentUserKey].id) else None
  }

  /** A user's data; nothing stored reads as empty collections. */
  function DataIn(m: Entries, userId: string): AppUserData {
    var k := UserDataKey(userId);
    if k in m && m[k].DataEntry? then m[k].data else EmptyUserData()
  }

  /** Every registered user has a data record, and the current user, if any, is
      registered. */
  predicate ConsistentEntries(m: Entries) {
    && (forall u :: u in UsersIn(m) ==> UserDataKey(u.id) in m)
    && (CurrentIn(m).Some? ==> exists u :: u in UsersIn(m) && u.id == CurrentIn(m).value)
  }

  /** The store after `createUser`: the user appended, its data empty, and it current. */
  function AfterCreate(m: Entries, user: User): Entries {
    m[UsersKey := UsersEntry(UsersIn(m) + [user])]
     [UserDataKey(user.id) := DataEntry(EmptyUserData())]
     [CurrentUserKey := CurrentEntry(user.id)]
  }

  /** The store after `deleteUser`. */
  function AfterDelete(m: Entries, userId: string): Entries {
    var users := RemoveKey(UsersIn(m), UserId, userId);
    var cleared := m[UsersKey := UsersEntry(users)] - {UserDataKey(userId)};
    if CurrentIn(m) != Some(userId) then cleared
    else if |users| > 0 then cleared[CurrentUserKey := CurrentEntry(users[0].id)]
    else cleared - {CurrentUserKey}
  }

  /** Creating a user registers it last, makes it current with empty data, and
      leaves every other user's data alone. */
  lemma CreateEffects(m: Entries, user: User, other: string)
    ensures var m' := AfterCreate(m, user);
      && UsersIn(m') == UsersIn(m) + [user]
      && CurrentIn(m') == Some(user.id)
      && DataIn(m', user.id) == EmptyUserData()
      && (other != user.id ==> DataIn(m', other) == DataIn(m, other))
  {
    KeysDistinct(user.id);
    KeysDistinct(other);
    DataKeyInjective(other, user.id);
  }

  lemma CreateKeepsConsistent(m: Entries, user: User)
    requires ConsistentEntries(m)
    ensures ConsistentEntries(AfterCreate(m, user))
  {
    var m' := AfterCreate(m, user);
    CreateEffects(m, user, user.id);
    forall u | u in UsersIn(m')
      ensures UserDataKey(u.id) in m'
    {
      if u != user {
        assert u in UsersIn(m);
      }
    }
    assert user in UsersIn(m');
  }

  /** Deleting a user unregisters every user with that id and drops its data; other
      users' data stays. When it was current, the first remaining user becomes
      current, or no one; otherwise the current user stays. */
  lemma DeleteEffects(m: Entries, userId: string, other: string)
    ensures var m' := AfterDelete(m, userId);
      && UsersIn(m') == RemoveKey(UsersIn(m), UserId, userId)
      && UserDataKey(userId) !in m'
      && (other != userId ==> DataIn(m', other) == DataIn(m, other))
      && (CurrentIn(m) != Some(userId) ==> CurrentIn(m') == CurrentIn(m))
      && (CurrentIn(m) == Some(userId) && |UsersIn(m')| > 0 ==> CurrentIn(m') == Some(UsersIn(m')[0].id))
      && (CurrentIn(m) == Some(userId) && |UsersIn(m')| == 0 ==> CurrentIn(m') == None)
  {
    KeysDistinct(userId);
    KeysDistinct(other);
    DataKeyInjective(other, userId);
  }

  lemma DeleteKeepsConsistent(m: Entries, userId: string)
    requires ConsistentEntries(m)
    ensures ConsistentEntries(AfterDelete(m, userId))
  {
    var m' := AfterDelete(m, userId);
    DeleteEffects(m, userId, userId);
    var users := UsersIn(m');
    forall u | u in users
      ensures UserDataKey(u.id) in m'
    {
      RemoveKeyMembers(UsersIn(m), UserId, userId, u);
      DataKeyInjective(u.id, userId);
      KeysDistinct(u.id);
    }
    if CurrentIn(m').Some? {
      if CurrentIn(m) == Some(userId) {
        assert users[0] in users;
      } else {
        var u :| u in UsersIn(m) && u.id == CurrentIn(m).value;
        RemoveKeyMembers(UsersIn(m), UserId, userId, u);
      }
    }
  }

  /** The user the accessors work on: a current id that is not empty. */
  function ActiveIn(m: Entries): Option<string> {
    if CurrentIn(m).Some? && CurrentIn(m).value != "" then CurrentIn(m) else None
  }

  function ActiveDataIn(m: Entries): AppUserData {
    if ActiveIn(m).Some? then DataIn(m, ActiveIn(m).value) else EmptyUserData()
  }

  /** `setActiveUserData`: write the active user's record, or nothing without one. */
  function AfterSetActive(m: Entries, data: AppUserData): Entries {
    if ActiveIn(m).Some? then m[UserDataKey(ActiveIn(m).value) := DataEntry(data)] else m
  }

  /** Writing the active user's data changes neither the registry, nor who is
      current, nor any other user's data, and reads back as written. */
  lemma SetActiveEffects(m: Entries, data: AppUserData, other: string)
    ensures var m' := AfterSetActive(m, data);
      && UsersIn(m') == UsersIn(m) && CurrentIn(m') == CurrentIn(m)
      && (ActiveIn(m).Some? ==> ActiveDataIn(m') == data)
      && (ActiveIn(m).None? ==> m' == m)
      && (ActiveIn(m) != Some(other) ==> DataIn(m', other) == DataIn(m, other))
  {
    KeysDistinct(other);
    if ActiveIn(m).Some? {
      KeysDistinct(ActiveIn(m).value);
      DataKeyInjective(other, ActiveIn(m).value);
    }
  }

  lemma SetActiveKeepsConsistent(m: Entries, data: AppUserData)
    requires ConsistentEntries(m)
    ensures ConsistentEntries(AfterSetActive(m, data))
  {
    SetActiveEffects(m, data, "");
  }

  /** The browser's key-value store as the registry functions use it. */
  class Store {
    var entries: Entries

    constructor()
      ensures entries == map[]
    {
      entries := map[];
    }

    /** `getUsers`: the stored registry, and no users when nothing is stored. */
    function Users(): (r: seq<User>)
      reads this
      ensures UsersKey !in entries ==> r == []
      ensures UsersKey in entries && entries[UsersKey].UsersEntry? ==> r == entries[UsersKey].users
    {
      UsersIn(entries)
    }

    /** `getCurrentUserId`: the stored id, and null when none is stored. */
    function CurrentUserId(): (r: Option<string>)
      reads this
      ensures r.Some? <==> CurrentUserKey in entries && entries[CurrentUserKey].CurrentEntry?
      ensures r.Some? ==> entries[CurrentUserKey] == CurrentEntry(r.value)
    {
      CurrentIn(entries)
    }

    /** `loadUserData`: the user's stored record, and empty collections when none
        is stored. */
    function LoadUserData(userId: string): (r: AppUserData)
      reads this
      ensures UserDataKey(userId) !in entries ==> r == EmptyUserData()
      ensures UserDataKey(userId) in entries && entries[UserDataKey(userId)].DataEntry? ==>
        r == entries[UserDataKey(userId)].data
    {
      DataIn(entries, userId)
    }

    /** `getActiveUserData`: empty collections without a current id (null or the
        empty text), and otherwise that user's record. */
    function ActiveUserData(): (r: AppUserData)
      reads this
      ensures CurrentUserId() == None || CurrentUserId() == Some("") ==> r == EmptyUserData()
      ensures CurrentUserId().Some? && CurrentUserId().value != "" ==> r == LoadUserData(CurrentUserId().value)
    {
      ActiveDataIn(entries)
    }

    predicate Consistent()
      reads this
    {
      ConsistentEntries(entries)
    }

    method SetCurrentUserId(userId: string)
      modifies this
      ensures entries == old(entries)[CurrentUserKey := CurrentEntry(userId)]
    {
      entries := entries[CurrentUserKey := CurrentEntry(userId)];
    }

    method SaveUserData(userId: string, data: AppUserData)
      modifies this
      ensures entries == old(entries)[UserDataKey(userId) := DataEntry(data)]
    {
      entries := entries[UserDataKey(userId) := DataEntry(data)];
    }

    /** Registers a user under a fresh id with empty data and makes it current. */
    method CreateUser(name: string, freshId: string) returns (user: User)
      modifies this
      ensures user == User(freshId, name)
      ensures entries == AfterCreate(old(entries), user)
      ensures old(Consistent()) ==> Consistent()
    {
      user := User(freshId, name);
      var users := Users();
      entries := entries[UsersKey := UsersEntry(users + [user])];
      SaveUserData(freshId, EmptyUserData());
      SetCurrentUserId(freshId);
      if old(Consistent()) {
        CreateKeepsConsistent(old(entries), user);
      }
    }

    /** Unregisters the user and drops its data; hands "current" on if needed. */
    method DeleteUser(userId: string)
      modifies this
      ensures entries == AfterDelete(old(entries), userId)
      ensures old(Consistent()) ==> Consistent()
    {
      var users := RemoveKey(Users(), UserId, userId);
      entries := entries[UsersKey := UsersEntry(users)];
      entries := entries - {UserDataKey(userId)};
      KeysDistinct(userId);
      var current := CurrentUserId();
      assert current == CurrentIn(old(entries));
      if current == Some(userId) {
        if |users| > 0 {
          SetCurrentUserId(users[0].id);
        } else {
          entries := entries - {CurrentUserKey};
        }
      }
      if old(Consistent()) {
        DeleteKeepsConsistent(old(entries), userId);
      }
    }

    method SetActiveUserData(data: AppUserData)
      modifies this
      ensures entries == AfterSetActive(old(entries), data)
      ensures old(Consistent()) ==> Consistent()
    {
      var userId := if CurrentUserId().Some? && CurrentUserId().value != "" then CurrentUserId() else None;
      if userId.Some? {
        SaveUserData(userId.value, data);
      }
      if old(Consistent()) {
        SetActiveKeepsConsistent(old(entries), data);
      }
    }

    /** The read-modify-write accessors: replace one collection of the active
        user's data. */
    method SaveTransactions(transactions: seq<Transaction>)
      modifies this
      ensures entries == AfterSetActive(old(entries), old(ActiveUserData()).(transactions := transactions))
      ensures old(Consistent()) ==> Consistent()
    {
      var data := ActiveUserData();
      SetActiveUserData(data.(transactions := transactions));
    }

    method SaveRecurrings(recurrings: seq<RecurringTransaction>)
      modifies this
      ensures entries == AfterSetActive(old(entries), old(ActiveUserData()).(recurrings := recurrings))
      ensures old(Consistent()) ==> Consistent()
    {
      var data := ActiveUserData();
      SetActiveUserData(data.(recurrings := recurrings));
    }

    method SaveCategories(categories: seq<Category>)
      modifies this
      ensures entries == AfterSetActive(old(entries), old(ActiveUserData()).(categories := categories))
      ensures old(Consistent()) ==> Consistent()
    {
      var data := ActiveUserData();
      SetActiveUserData(data.(categories := categories));
    }

    method SaveBudgets(budgets: seq<Budget>)
      modifies this
      ensures entries == AfterSetActive(old(entries), old(ActiveUserData()).(budgets := budgets))
      ensures old(Consistent()) ==> Consistent()
    {
      var data := ActiveUserData();
      SetActiveUserData(data.(budgets := budgets));
    }
  }

  /** Saving one collection keeps the other three of the active user's data. */
  lemma SaveOneCollection(m: Entries, transactions: seq<Transaction>)
    requires ActiveIn(m).Some?
    ensures var m' := AfterSetActive(m, ActiveDataIn(m).(transactions := transactions));
      && ActiveDataIn(m').transactions == transactions
      && ActiveDataIn(m').recurrings == ActiveDataIn(m).recurrings
      && ActiveDataIn(m').categories == ActiveDataIn(m).categories
      && ActiveDataIn(m').budgets == ActiveDataIn(m).budgets
  {
    SetActiveEffects(m, ActiveDataIn(m).(transactions := transactions), "");
  }
}
