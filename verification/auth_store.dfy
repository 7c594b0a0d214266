/**
 The persisted authentication store (`stores/useAuthStore.ts`): a single
 `user` slot, `setUser` and `clearUser`, kept in browser storage under the key
 `healthPal` by zustand's `persist` middleware with JSON storage.

 Storage is a map from keys to text, as `localStorage` is. Every state change
 writes the partialized state, `{user}`, to the key, wrapped the way `persist`
 wraps it: `{"state":{"user":…},"version":0}`. When the page starts, the store
 begins with no user and hydrates from storage; a missing or unreadable value
 leaves it with no user.
 */
module AuthStore {
  import opened Wrappers
  import opened Json
  import Text

  /** The signed-in user, as the login page stores it. */
  datatype UserData = UserData(userId: string, name: string, role: string, profilePicture: string)

  /** The store's state; `None` is the `null` of the source. */
  datatype AuthState = AuthState(user: Option<UserData>)

  const InitialState := AuthState(None)

  /** The part of the state that is persisted: `partialize` keeps only `user`. */
  datatype Slice = Slice(user: Option<UserData>)

  function Partialize(state: AuthState): (r: Slice)
    ensures AuthState(r.user) == state
  {
    Slice(state.user)
  }

  const StorageKey: string := "healthPal"

  /** The `version` that `persist` writes when none is configured. */
  const Version: string := "0"

  type Storage = map<string, string>

  /** The store as the page sees it, together with the browser storage it writes. */
  datatype Store = Store(state: AuthState, storage: Storage)

  // ---------------------------------------------------------------------------
  // JSON text of the persisted value
  // ---------------------------------------------------------------------------

  function WriteMember(key: string, value: string): string {
    QuoteString(key) + ":" + QuoteString(value)
  }

  /** A JSON object with four string members, in the order given. */
  function WriteObject(k1: string, v1: string, k2: string, v2: string,
                       k3: string, v3: string, k4: string, v4: string): string
  {
    "{" + (WriteMember(k1, v1) + ("," + (WriteMember(k2, v2) +
    ("," + (WriteMember(k3, v3) + ("," + (WriteMember(k4, v4) + "}")))))))
  }

  function WriteUser(u: UserData): string {
    WriteObject("userId", u.userId, "name", u.name, "role", u.role, "profilePicture", u.profilePicture)
  }

  function WriteUserOrNull(user: Option<UserData>): string {
    match user
    case None => "null"
    case Some(u) => WriteUser(u)
  }

  const Prologue: string := "{\"state\":{\"user\":"
  const Epilogue: string := "},\"version\":" + Version + "}"

  /** The text `persist` stores for a slice. */
  function Serialize(p: Slice): string {
    Prologue + (WriteUserOrNull(p.user) + Epilogue)
  }

  /** `t` with the literal `lit` removed from its front, if it starts with it. */
  function Expect(lit: string, t: string): (r: Option<string>)
    ensures r.Some? <==> lit <= t
    ensures r.Some? ==> t == lit + r.value
  {
    if |lit| <= |t| && t[..|lit|] == lit then Some(t[|lit|..]) else None
  }

  function ReadMember(key: string, t: string): Option<(string, string)> {
    var t1 :- Expect(QuoteString(key) + ":", t);
    ReadString(t1)
  }

  /** Reads one member and the separator after it. */
  function ReadMemberBefore(key: string, sep: string, t: string): Option<(string, string)> {
    var f :- ReadMember(key, t);
    var rest :- Expect(sep, f.1);
    Some((f.0, rest))
  }

  /** Reads a JSON object with exactly the four string members named, in that order. */
  function ReadObject(k1: string, k2: string, k3: string, k4: string, t: string)
    : Option<(string, string, string, string, string)>
  {
    var t1 :- Expect("{", t);
    var f1 :- ReadMemberBefore(k1, ",", t1);
    var f2 :- ReadMemberBefore(k2, ",", f1.1);
    var f3 :- ReadMemberBefore(k3, ",", f2.1);
    var f4 :- ReadMemberBefore(k4, "}", f3.1);
    Some((f1.0, f2.0, f3.0, f4.0, f4.1))
  }

  function ReadUser(t: string): Option<(UserData, string)> {
    var o :- ReadObject("userId", "name", "role", "profilePicture", t);
    Some((UserData(o.0, o.1, o.2, o.3), o.4))
  }

  function ReadUserOrNull(t: string): Option<(Option<UserData>, string)> {
    match Expect("null", t)
    case Some(rest) => Some((None, rest))
    case None =>
      var u :- ReadUser(t);
      Some((Some(u.0), u.1))
  }

  /** Reads back the text `Serialize` writes; any other text is unreadable. */
  function Deserialize(text: string): Option<Slice> {
    var t1 :- Expect(Prologue, text);
    var u :- ReadUserOrNull(t1);
    if u.1 == Epilogue then Some(Slice(u.0)) else None
  }

  lemma ExpectLiteral(lit: string, x: string)
    ensures Expect(lit, lit + x) == Some(x)
  {
    assert (lit + x)[..|lit|] == lit;
    assert (lit + x)[|lit|..] == x;
  }

  lemma ReadWrittenMember(key: string, value: string, rest: string)
    ensures ReadMember(key, WriteMember(key, value) + rest) == Some((value, rest))
  {
    var lit := QuoteString(key) + ":";
    assert WriteMember(key, value) + rest == lit + (QuoteString(value) + rest);
    ExpectLiteral(lit, QuoteString(value) + rest);
    ReadQuoted(value, rest);
  }

  /** Reading one `"key":"value"` member and the separator after it. */
  lemma ReadMemberThenSep(key: string, value: string, sep: string, x: string)
    ensures ReadMemberBefore(key, sep, WriteMember(key, value) + (sep + x)) == Some((value, x))
  {
    ReadWrittenMember(key, value, sep + x);
    ExpectLiteral(sep, x);
  }

  lemma ReadWrittenObject(k1: string, v1: string, k2: string, v2: string,
                          k3: string, v3: string, k4: string, v4: string, rest: string)
    ensures ReadObject(k1, k2, k3, k4, WriteObject(k1, v1, k2, v2, k3, v3, k4, v4) + rest)
         == Some((v1, v2, v3, v4, rest))
  {
    var m1, m2, m3, m4 := WriteMember(k1, v1), WriteMember(k2, v2), WriteMember(k3, v3), WriteMember(k4, v4);
    var y4 := m4 + "}";
    var y3 := m3 + ("," + y4);
    var y2 := m2 + ("," + y3);
    var y1 := m1 + ("," + y2);
    Text.AppendAssoc(m4, "}", rest);
    Text.AppendAssoc(",", y4, rest);
    Text.AppendAssoc(m3, "," + y4, rest);
    Text.AppendAssoc(",", y3, rest);
    Text.AppendAssoc(m2, "," + y3, rest);
    Text.AppendAssoc(",", y2, rest);
    Text.AppendAssoc(m1, "," + y2, rest);
    Text.AppendAssoc("{", y1, rest);
    ExpectLiteral("{", y1 + rest);
    ReadMemberThenSep(k1, v1, ",", y2 + rest);
    ReadMemberThenSep(k2, v2, ",", y3 + rest);
    ReadMemberThenSep(k3, v3, ",", y4 + rest);
    ReadMemberThenSep(k4, v4, "}", rest);
  }

  lemma {:induction false} ReadWrittenUser(u: UserData, rest: string)
    ensures ReadUser(WriteUser(u) + rest) == Some((u, rest))
  {
    ReadWrittenObject("userId", u.userId, "name", u.name, "role", u.role, "profilePicture", u.profilePicture, rest);
  }

  lemma {:induction false} ReadWrittenUserOrNull(user: Option<UserData>, rest: string)
    ensures ReadUserOrNull(WriteUserOrNull(user) + rest) == Some((user, rest))
  {
    match user
    case None =>
      ExpectLiteral("null", rest);
    case Some(u) =>
      ObjectStartsWithBrace("userId", u.userId, "name", u.name, "role", u.role, "profilePicture", u.profilePicture, rest);
      NotNull(WriteUser(u) + rest);
      ReadWrittenUser(u, rest);
  }

  lemma ObjectStartsWithBrace(k1: string, v1: string, k2: string, v2: string,
                              k3: string, v3: string, k4: string, v4: string, rest: string)
    ensures var t := WriteObject(k1, v1, k2, v2, k3, v3, k4, v4) + rest; |t| > 0 && t[0] == '{'
  {
  }

  lemma NotNull(t: string)
    requires |t| > 0 && t[0] == '{'
    ensures Expect("null", t).None?
  {
  }

  /** The persisted text reads back as the slice that was written. */
  lemma {:induction false} DeserializeSerialize(p: Slice)
    ensures Deserialize(Serialize(p)) == Some(p)
  {
    ExpectLiteral(Prologue, WriteUserOrNull(p.user) + Epilogue);
    ReadWrittenUserOrNull(p.user, Epilogue);
  }

  // ---------------------------------------------------------------------------
  // Store operations
  // ---------------------------------------------------------------------------

  /** The storage holds exactly the partialized state. */
  predicate Persisted(store: Store) {
    StorageKey in store.storage && Deserialize(store.storage[StorageKey]) == Some(Partialize(store.state))
  }

  /** The stored slice, if the key holds readable text. */
  function Stored(storage: Storage): Option<Slice> {
    if StorageKey in storage then Deserialize(storage[StorageKey]) else None
  }

  /** The store when the page starts: no user, then hydrated from storage. */
  function Hydrate(storage: Storage): (r: Store)
    ensures r.storage == storage
    ensures Stored(storage).None? ==> r.state == InitialState
    ensures Stored(storage).Some? ==> Partialize(r.state) == Stored(storage).value
  {
    match Stored(storage)
    case None => Store(InitialState, storage)
    case Some(p) => Store(AuthState(p.user), storage)
  }

  /** `set`: replace the state and write its partialized form to storage. */
  function Commit(store: Store, state: AuthState): (r: Store)
    ensures r.state == state
    ensures Persisted(r)
    ensures forall k :: k != StorageKey ==> (k in r.storage <==> k in store.storage)
    ensures forall k :: k != StorageKey && k in store.storage ==> r.storage[k] == store.storage[k]
  {
    DeserializeSerialize(Partialize(state));
    Store(state, store.storage[StorageKey := Serialize(Partialize(state))])
  }

  function SetUser(store: Store, user: UserData): (r: Store)
    ensures r.state.user == Some(user)
    ensures Persisted(r)
    ensures forall k :: k != StorageKey ==> (k in r.storage <==> k in store.storage)
    ensures forall k :: k != StorageKey && k in store.storage ==> r.storage[k] == store.storage[k]
  {
    Commit(store, AuthState(Some(user)))
  }

  function ClearUser(store: Store): (r: Store)
    ensures r.state == InitialState
    ensures Persisted(r)
    ensures forall k :: k != StorageKey ==> (k in r.storage <==> k in store.storage)
    ensures forall k :: k != StorageKey && k in store.storage ==> r.storage[k] == store.storage[k]
  {
    Commit(store, AuthState(None))
  }

  // ---------------------------------------------------------------------------
  // Properties
  // ---------------------------------------------------------------------------

  /** A page that starts on empty storage has no user. */
  lemma FreshStartHasNoUser()
    ensures Hydrate(map[]).state == InitialState
  {
  }

  /** Reloading the page after a write restores the state that was written. */
  lemma ReloadRestores(store: Store)
    requires Persisted(store)
    ensures Hydrate(store.storage).state == store.state
  {
  }

  /** Unreadable stored text leaves the reloaded page signed out. */
  lemma ReloadOfCorruptText(storage: Storage, text: string)
    requires Deserialize(text).None?
    ensures Hydrate(storage[StorageKey := text]).state == InitialState
  {
  }

  /** A second write replaces the first entirely: the store keeps no history. */
  lemma {:induction false} CommitTwice(store: Store, s1: AuthState, s2: AuthState)
    ensures Commit(Commit(store, s1), s2) == Commit(store, s2)
  {
    var m := store.storage;
    var a, b := Serialize(Partialize(s1)), Serialize(Partialize(s2));
    var once := Commit(store, s1);
    assert once.storage == m[StorageKey := a];
    MapUpdateTwice(m, StorageKey, a, b);
  }

  lemma MapUpdateTwice(m: Storage, k: string, a: string, b: string)
    ensures m[k := a][k := b] == m[k := b]
  {
  }

  lemma {:induction false} ClearUserIdempotent(store: Store)
    ensures ClearUser(ClearUser(store)) == ClearUser(store)
  {
    CommitTwice(store, InitialState, InitialState);
  }

  /** `setUser` replaces the user wholesale: the earlier user leaves no trace. */
  lemma {:induction false} SetUserOverwrites(store: Store, u1: UserData, u2: UserData)
    ensures SetUser(SetUser(store, u1), u2) == SetUser(store, u2)
  {
    CommitTwice(store, AuthState(Some(u1)), AuthState(Some(u2)));
  }

  lemma {:induction false} SetThenClear(store: Store, u: UserData)
    ensures ClearUser(SetUser(store, u)) == ClearUser(store)
  {
    CommitTwice(store, AuthState(Some(u)), InitialState);
  }

  /** A sequence of store calls, as components make them. */
  datatype Action = SetUserAction(user: UserData) | ClearUserAction

  function Apply(store: Store, a: Action): Store {
    match a
    case SetUserAction(u) => SetUser(store, u)
    case ClearUserAction => ClearUser(store)
  }

  function Run(store: Store, actions: seq<Action>): Store
    decreases |actions|
  {
    if actions == [] then store else Run(Apply(store, actions[0]), actions[1..])
  }

  /** The user the last action leaves behind, read off the action list alone. */
  function LastUser(start: Option<UserData>, actions: seq<Action>): Option<UserData> {
    if actions == [] then start
    else match actions[|actions| - 1]
      case SetUserAction(u) => Some(u)
      case ClearUserAction => None
  }

  /** After any calls, the store holds the user of the last call (none after
      a clear, the starting user after no call at all). */
  lemma {:induction false} RunLastUser(store: Store, actions: seq<Action>)
    ensures Run(store, actions).state.user == LastUser(store.state.user, actions)
    decreases |actions|
  {
    if actions != [] {
      RunLastUser(Apply(store, actions[0]), actions[1..]);
      RunLastUserStep(store, actions);
    }
  }

  lemma RunLastUserStep(store: Store, actions: seq<Action>)
    requires actions != []
    requires var next := Apply(store, actions[0]);
      Run(next, actions[1..]).state.user == LastUser(next.state.user, actions[1..])
    ensures Run(store, actions).state.user == LastUser(store.state.user, actions)
  {
    ApplyUser(store, actions[0]);
    assert actions[..1] == [actions[0]];
    LastUserTail(store.state.user, actions);
  }

  lemma ApplyUser(store: Store, a: Action)
    ensures Apply(store, a).state.user == LastUser(store.state.user, [a])
  {
  }

  lemma LastUserTail(start: Option<UserData>, actions: seq<Action>)
    requires actions != []
    ensures LastUser(start, actions) == LastUser(LastUser(start, actions[..1]), actions[1..])
  {
    if |actions| > 1 {
      assert actions[1..][|actions| - 2] == actions[|actions| - 1];
    }
  }

  /** After at least one call, the storage is in step with the state, so a
      reload brings back the same user. */
  lemma {:induction false} RunPersists(store: Store, actions: seq<Action>)
    requires actions != []
    ensures Persisted(Run(store, actions))
    ensures Hydrate(Run(store, actions).storage).state == Run(store, actions).state
    decreases |actions|
  {
    var next := Apply(store, actions[0]);
    assert Persisted(next);
    if |actions| > 1 {
      RunPersists(next, actions[1..]);
    }
  }
}
