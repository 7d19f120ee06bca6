/** The session store of src/contexts/AuthContext.tsx: the `(user, loading)`
    pair, how it reacts to the session check and to auth-state events, the
    "ensure a profile row exists" rule, and the outcomes of the sign-in,
    sign-up and sign-out calls. The identity provider and the profiles table
    are external: their answers are inputs. */
module Auth {
  import opened Wrappers

  /** The signed-in identity; `metadataFullName` is the `full_name` entry of the
      provider's user metadata, which sign-up fills in. */
  datatype User = User(id: string, email: string, metadataFullName: Option<string>)

  datatype AuthState = AuthState(user: Option<User>, loading: bool)

  /** The provider's state before anything has been heard from the identity service. */
  function Initial(): (st: AuthState)
    ensures st.user.None? && st.loading
  {
    AuthState(None, true)
  }

  /** The three views of the store a consumer can distinguish. */
  datatype Phase = Loading | Unauthenticated | Authenticated(id: string)

  function PhaseOf(st: AuthState): Phase {
    if st.loading then Loading
    else if st.user.Some? then Authenticated(st.user.value.id)
    else Unauthenticated
  }

  /** The answer to the initial `getSession()`: a session user, when present,
      becomes the user; an absent session leaves the current user as it is.
      Loading ends either way. */
  function OnSession(st: AuthState, sessionUser: Option<User>): (r: AuthState)
    ensures !r.loading
    ensures sessionUser.Some? ==> r.user == sessionUser
    ensures sessionUser.None? ==> r.user == st.user
  {
    AuthState(if sessionUser.Some? then sessionUser else st.user, false)
  }

  /** The auth-state events the identity service emits. */
  datatype AuthEvent =
    | InitialSession | SignedIn | SignedOut | TokenRefreshed | UserUpdated | PasswordRecovery

  /** A row of the `profiles` table. */
  datatype Profile = Profile(id: string, fullName: string, createdAt: string)

  /** How many rows of the table carry `id`. */
  function CountId(table: seq<Profile>, id: string): nat {
    if table == [] then 0
    else (if table[0].id == id then 1 else 0) + CountId(table[1..], id)
  }

  predicate HasProfile(table: seq<Profile>, id: string) {
    exists i :: 0 <= i < |table| && table[i].id == id
  }

  /** At most one row per id. */
  predicate UniqueIds(table: seq<Profile>) {
    forall i, j :: 0 <= i < j < |table| ==> table[i].id != table[j].id
  }

  lemma {:induction false} CountIdPositive(table: seq<Profile>, id: string)
    ensures CountId(table, id) > 0 <==> HasProfile(table, id)
    decreases |table|
  {
    if table != [] {
      CountIdPositive(table[1..], id);
      if HasProfile(table, id) && table[0].id != id {
        var i :| 0 <= i < |table| && table[i].id == id;
        assert table[1..][i - 1].id == id;
      }
      if HasProfile(table[1..], id) {
        var i :| 0 <= i < |table[1..]| && table[1..][i].id == id;
        assert table[i + 1].id == id;
      }
    }
  }

  lemma {:induction false} CountIdUnique(table: seq<Profile>, id: string)
    requires UniqueIds(table)
    ensures CountId(table, id) <= 1
    decreases |table|
  {
    if table != [] {
      CountIdUnique(table[1..], id);
      CountIdPositive(table[1..], id);
    }
  }

  /** The first row carrying `id`, if any. */
  function FirstWithId(table: seq<Profile>, id: string): (r: Option<Profile>)
    ensures r.Some? <==> HasProfile(table, id)
    ensures r.Some? ==> r.value.id == id
    decreases |table|
  {
    if table == [] then None
    else if table[0].id == id then Some(table[0])
    else
      var r := FirstWithId(table[1..], id);
      assert HasProfile(table, id) ==> HasProfile(table[1..], id) by {
        if HasProfile(table, id) {
          var i :| 0 <= i < |table| && table[i].id == id;
          assert table[1..][i - 1].id == id;
        }
      }
      assert HasProfile(table[1..], id) ==> HasProfile(table, id) by {
        if HasProfile(table[1..], id) {
          var i :| 0 <= i < |table[1..]| && table[1..][i].id == id;
          assert table[i + 1].id == id;
        }
      }
      r
  }

  /** The `data` the caller reads from
      `.from('profiles').select('id').eq('id', id).single()`: the row when the
      query goes through and exactly one row matches; no data otherwise. The
      query fails (`fails`) for reasons outside the table, such as the network
      or an access policy, and `single` reports an error for zero or several
      rows; the caller looks only at `data` in every case. On a table without
      duplicate ids, a lookup that goes through finds a row exactly when one
      exists. */
  function SelectSingle(table: seq<Profile>, id: string, fails: bool): (r: Option<Profile>)
    ensures fails ==> r.None?
    ensures r.Some? ==> HasProfile(table, id) && r.value.id == id
    ensures !fails && UniqueIds(table) ==> (r.Some? <==> HasProfile(table, id))
  {
    CountIdPositive(table, id);
    if fails then None
    else if CountId(table, id) == 1 then
      FirstWithId(table, id)
    else
      if UniqueIds(table) then CountIdUnique(table, id); None else None
  }

  /** The display name stored for a new profile: `full_name || 'Anonymous'`,
      the metadata name when it is present and non-empty, 'Anonymous' otherwise. */
  function DisplayName(u: User): (name: string)
    ensures name != []
    ensures u.metadataFullName.Some? && u.metadataFullName.value != [] ==> name == u.metadataFullName.value
    ensures !(u.metadataFullName.Some? && u.metadataFullName.value != []) ==> name == "Anonymous"
  {
    if u.metadataFullName.Some? && u.metadataFullName.value != [] then u.metadataFullName.value
    else "Anonymous"
  }

  /** The backend's side of `.from('profiles').insert([row])`. The table's `id`
      column is its primary key, so a row whose id is already present is
      refused; `accepted` says whether the backend takes the insert otherwise
      (it may refuse it for reasons outside the table, such as the network or
      an access policy). The table never gains a duplicate id. */
  function InsertProfile(table: seq<Profile>, row: Profile, accepted: bool): (r: seq<Profile>)
    ensures r == table || r == table + [row]
    ensures |r| == |table| + 1 <==> accepted && !HasProfile(table, row.id)
    ensures UniqueIds(table) ==> UniqueIds(r)
    ensures HasProfile(r, row.id) <==> HasProfile(table, row.id) || |r| == |table| + 1
  {
    if accepted && !HasProfile(table, row.id) then
      var r := table + [row];
      assert r[|table|].id == row.id;
      assert forall i :: 0 <= i < |table| ==> r[i] == table[i];
      r
    else
      table
  }

  /** The profile check run on SIGNED_IN: look the user's row up and, when the
      lookup gives no data, insert one (an insert failure is only logged). A
      failed lookup therefore also leads to an insert, which the primary key
      refuses when the row exists. Existing rows are never touched, the table
      never gains a second row for an id, and unless the backend refuses the
      insert for reasons of its own, the user ends up with a profile. */
  function EnsureProfile(table: seq<Profile>, u: User, now: string, lookupFails: bool, insertAccepted: bool): (r: seq<Profile>)
    ensures |table| <= |r| <= |table| + 1 && r[..|table|] == table
    ensures r != table ==> SelectSingle(table, u.id, lookupFails).None?
    ensures |r| == |table| + 1 <==>
      SelectSingle(table, u.id, lookupFails).None? && insertAccepted && !HasProfile(table, u.id)
    ensures |r| == |table| + 1 ==> r[|table|] == Profile(u.id, DisplayName(u), now)
    ensures HasProfile(table, u.id) ==> r == table
    ensures UniqueIds(table) ==> UniqueIds(r) && CountId(r, u.id) <= 1
    ensures insertAccepted ==> HasProfile(r, u.id)
  {
    if SelectSingle(table, u.id, lookupFails).None? then
      var r := InsertProfile(table, Profile(u.id, DisplayName(u), now), insertAccepted);
      assert r[..|table|] == table;
      if UniqueIds(table) then
        CountIdUnique(r, u.id);
        r
      else
        r
    else
      assert table[..|table|] == table;
      if UniqueIds(table) then
        CountIdUnique(table, u.id);
        table
      else
        table
  }

  /** Once a profile for `u` exists, a second SIGNED_IN for the same identity
      leaves the table as it is, whatever the timestamp and whatever the backend
      answers to the lookup and the insert. */
  lemma EnsureProfileIdempotent(table: seq<Profile>, u: User, now: string, f: bool, ok: bool, later: string, f2: bool, ok2: bool)
    requires HasProfile(EnsureProfile(table, u, now, f, ok), u.id)
    ensures EnsureProfile(EnsureProfile(table, u, now, f, ok), u, later, f2, ok2) == EnsureProfile(table, u, now, f, ok)
  {
  }

  /** The app's whole view of the outside world: the session state and the profiles table. */
  datatype World = World(state: AuthState, profiles: seq<Profile>)

  /** The synchronous part of the `onAuthStateChange` callback. SIGNED_IN with a
      session user sets the user and leaves loading as it is: the callback now
      awaits the profile check, and loading ends only after it. SIGNED_OUT clears
      the user; every other event, and SIGNED_IN without a user, keeps it. Both
      of those end loading at once, since nothing is awaited on their path. */
  function OnAuthEvent(w: World, ev: AuthEvent, sessionUser: Option<User>): (r: World)
    ensures r.profiles == w.profiles
    ensures ev == SignedIn && sessionUser.Some? ==>
      r.state.user == sessionUser && r.state.loading == w.state.loading
    ensures ev == SignedOut ==> r.state.user.None? && !r.state.loading
    ensures ev != SignedOut && !(ev == SignedIn && sessionUser.Some?) ==> r == w.(state := w.state.(loading := false))
  {
    if ev == SignedIn && sessionUser.Some? then
      World(AuthState(sessionUser, w.state.loading), w.profiles)
    else if ev == SignedOut then
      World(AuthState(None, false), w.profiles)
    else
      World(AuthState(w.state.user, false), w.profiles)
  }

  /** The rest of a SIGNED_IN callback, once the profile lookup and insert have
      answered: the profile rule runs for the callback's user, and loading ends.
      The user is not touched again, and a failed insert does not show in the state. */
  function OnProfileChecked(w: World, u: User, now: string, lookupFails: bool, insertAccepted: bool): (r: World)
    ensures !r.state.loading && r.state.user == w.state.user
    ensures r.profiles == EnsureProfile(w.profiles, u, now, lookupFails, insertAccepted)
  {
    World(w.state.(loading := false), EnsureProfile(w.profiles, u, now, lookupFails, insertAccepted))
  }

  /** One input the store reacts to: the `getSession` answer, an auth event, or
      the backend's answers to the profile check a SIGNED_IN started. */
  datatype Signal =
    | SessionChecked(sessionUser: Option<User>)
    | StateChanged(event: AuthEvent, eventUser: Option<User>)
    | ProfileChecked(profileUser: User, now: string, lookupFails: bool, insertAccepted: bool)

  /** A SIGNED_IN that carries a user: it sets the user and starts a profile
      check, leaving loading as it was. */
  predicate StartsProfileCheck(s: Signal) {
    s.StateChanged? && s.event == SignedIn && s.eventUser.Some?
  }

  /** The identity a signal can put into the store. */
  function SignalUser(s: Signal): Option<User> {
    match s
    case SessionChecked(u) => u
    case StateChanged(_, u) => u
    case ProfileChecked(_, _, _, _) => None
  }

  /** The store's reaction to one signal: a SIGNED_IN with a user sets it and
      leaves loading as it was, every other signal ends loading; profile rows
      are only ever appended and never duplicated, and the user afterwards is
      the one before or the one the signal carried. */
  function Step(w: World, s: Signal): (r: World)
    ensures StartsProfileCheck(s) ==> r.state.loading == w.state.loading && r.state.user == s.eventUser
    ensures !StartsProfileCheck(s) ==> !r.state.loading
    ensures |w.profiles| <= |r.profiles| && r.profiles[..|w.profiles|] == w.profiles
    ensures UniqueIds(w.profiles) ==> UniqueIds(r.profiles)
    ensures r.state.user.Some? ==> r.state.user == w.state.user || r.state.user == SignalUser(s)
  {
    assert w.profiles[..|w.profiles|] == w.profiles;
    match s
    case SessionChecked(u) => w.(state := OnSession(w.state, u))
    case StateChanged(ev, u) => OnAuthEvent(w, ev, u)
    case ProfileChecked(u, now, f, ok) => OnProfileChecked(w, u, now, f, ok)
  }

  /** The world after the signals, in the order they arrived. */
  function Run(w: World, signals: seq<Signal>): World
    decreases |signals|
  {
    if signals == [] then w else Run(Step(w, signals[0]), signals[1..])
  }

  /** Over any run: no profile row is removed or changed, and no id is ever duplicated. */
  lemma {:induction false} RunInvariants(w: World, signals: seq<Signal>)
    requires UniqueIds(w.profiles)
    ensures var r := Run(w, signals);
      && |w.profiles| <= |r.profiles|
      && r.profiles[..|w.profiles|] == w.profiles
      && UniqueIds(r.profiles)
      && (signals == [] ==> r == w)
    decreases |signals|
  {
    if signals != [] {
      var w' := Step(w, signals[0]);
      RunInvariants(w', signals[1..]);
      var r := Run(w', signals[1..]);
      assert r.profiles[..|w.profiles|] == r.profiles[..|w'.profiles|][..|w.profiles|];
    }
  }

  /** The store is loading after a run exactly when it was loading before and
      every signal was a SIGNED_IN with a user; after at least one such signal
      it then shows that user. */
  lemma {:induction false} RunLoading(w: World, signals: seq<Signal>)
    ensures var r := Run(w, signals);
      && (r.state.loading <==> w.state.loading && forall i :: 0 <= i < |signals| ==> StartsProfileCheck(signals[i]))
      && (signals != [] && r.state.loading ==> r.state.user.Some?)
      && (signals == [] ==> r == w)
    decreases |signals|
  {
    if signals != [] {
      var w' := Step(w, signals[0]);
      RunLoading(w', signals[1..]);
      var tail := signals[1..];
      assert (forall i :: 0 <= i < |signals| ==> StartsProfileCheck(signals[i]))
         <==> StartsProfileCheck(signals[0]) && forall i :: 0 <= i < |tail| ==> StartsProfileCheck(tail[i]) by {
        if forall i :: 0 <= i < |tail| ==> StartsProfileCheck(tail[i]) {
          forall i | 1 <= i < |signals|
            ensures StartsProfileCheck(signals[i])
          {
            assert signals[i] == tail[i - 1];
          }
        }
      }
    }
  }

  /** The user the store ends with is either the one it started with or one some
      signal carried: the store never invents an identity. */
  lemma {:induction false} RunUserComesFromSignals(w: World, signals: seq<Signal>)
    ensures var u := Run(w, signals).state.user;
      || u.None?
      || u == w.state.user
      || exists i :: 0 <= i < |signals| && SignalUser(signals[i]) == u
    decreases |signals|
  {
    if signals != [] {
      var w' := Step(w, signals[0]);
      RunUserComesFromSignals(w', signals[1..]);
      var u := Run(w, signals).state.user;
      if u.Some? && u != w'.state.user && u != w.state.user {
        var i :| 0 <= i < |signals[1..]| && SignalUser(signals[1..][i]) == u;
        assert SignalUser(signals[i + 1]) == u;
      }
    }
  }

  /** From the initial state the store stays loading exactly while every signal
      so far is a SIGNED_IN with a user whose profile check has not answered. A
      loading store has no user before the first signal and a user after it. */
  lemma InitialRunPhase(profiles: seq<Profile>, signals: seq<Signal>)
    ensures var r := Run(World(Initial(), profiles), signals);
      && (r.state.loading <==> forall i :: 0 <= i < |signals| ==> StartsProfileCheck(signals[i]))
      && (r.state.loading ==> (r.state.user.Some? <==> signals != []))
  {
    RunLoading(World(Initial(), profiles), signals);
  }

  /** The awaited profile check is visible: right after the first SIGNED_IN the
      store already shows the user while it is still loading, and the profile
      check's answer ends loading without changing the user. */
  lemma SignedInShowsUserWhileLoading(profiles: seq<Profile>, u: User, now: string, f: bool, ok: bool)
    ensures Run(World(Initial(), profiles), [StateChanged(SignedIn, Some(u))]).state == AuthState(Some(u), true)
    ensures Run(World(Initial(), profiles), [StateChanged(SignedIn, Some(u)), ProfileChecked(u, now, f, ok)]).state
         == AuthState(Some(u), false)
  {
    var w1 := Step(World(Initial(), profiles), StateChanged(SignedIn, Some(u)));
    assert [StateChanged(SignedIn, Some(u)), ProfileChecked(u, now, f, ok)][1..] == [ProfileChecked(u, now, f, ok)];
    assert Run(w1, [ProfileChecked(u, now, f, ok)]) == Step(w1, ProfileChecked(u, now, f, ok));
  }

  /** `signIn`: the backend error (if any) is raised; otherwise the app navigates home. */
  function SignIn(backendError: Option<string>): (r: Outcome<string>)
    ensures r.Raised? <==> backendError.Some?
    ensures r.Raised? ==> r.message == backendError.value
    ensures r.Returned? ==> r.value == "/"
  {
    if backendError.Some? then Raised(backendError.value) else Returned("/")
  }

  const NoUserMessage := "No user data returned after sign up"

  /** `signUp`: raises the backend error, or a fixed message when no user came
      back; otherwise (after the "check your email" notice) navigates to the
      sign-in page. */
  function SignUp(backendError: Option<string>, createdUser: Option<User>): (r: Outcome<string>)
    ensures r.Returned? <==> backendError.None? && createdUser.Some?
    ensures backendError.Some? ==> r == Raised(backendError.value)
    ensures backendError.None? && createdUser.None? ==> r == Raised(NoUserMessage)
    ensures r.Returned? ==> r.value == "/auth"
  {
    if backendError.Some? then Raised(backendError.value)
    else if createdUser.None? then Raised(NoUserMessage)
    else Returned("/auth")
  }

  /** `signOut`: the backend error (if any) is raised; otherwise the app navigates to sign-in. */
  function SignOut(backendError: Option<string>): (r: Outcome<string>)
    ensures r.Raised? <==> backendError.Some?
    ensures r.Raised? ==> r.message == backendError.value
    ensures r.Returned? ==> r.value == "/auth"
  {
    if backendError.Some? then Raised(backendError.value) else Returned("/auth")
  }

  const OutsideProviderMessage := "useAuth must be used within an AuthProvider"

  /** `useAuth`: the provider's state, or an error when called outside any provider. */
  function UseAuth(context: Option<AuthState>): (r: Outcome<AuthState>)
    ensures r.Raised? <==> context.None?
    ensures r.Raised? ==> r.message == OutsideProviderMessage
    ensures r.Returned? ==> r.value == context.value
  {
    if context.None? then Raised(OutsideProviderMessage) else Returned(context.value)
  }
}
