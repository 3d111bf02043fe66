// Refresh-token rotation in packages/auth/index.ts. Signing and verifying a
// token are the awaits; what runs between two awaits is one step, and the steps
// of any number of calls interleave. A token is represented by the payload that
// was signed, since verifying gives back exactly that.

module Tokens {
  import opened Wrappers

  datatype User = User(id: string, tenantId: string, roles: seq<string>, permissions: seq<string>,
      email: Option<string>)

  datatype Kind = Access | Refresh

  datatype Payload = Payload(user: User, kind: Kind, jti: string)

  datatype Pair = Pair(access: Payload, refresh: Payload)

  datatype Refusal = BadToken | InvalidTokenType | RefreshRevoked | SigningFailed

  type Store = map<string, Payload>

  /** The part of a rotation that runs without an await: whom the token was for, if it may still be used. */
  function Redeem(store: Store, token: Payload): Result<User, Refusal> {
    if token.kind != Refresh then Failure(InvalidTokenType)
    else if token.jti !in store then Failure(RefreshRevoked)
    else Success(token.user)
  }

  function Redeemed(store: Store, token: Payload): Store {
    if Redeem(store, token).Success? then store - {token.jti} else store
  }

  function RefreshFor(user: User, jti: string): Payload { Payload(user, Refresh, jti) }

  function AccessFor(user: User, jti: string): Payload { Payload(user, Access, jti) }

  class AuthService {
    var refreshStore: Store

    constructor ()
      ensures refreshStore == map[]
    {
      refreshStore := map[];
    }

    /** An uninterrupted issue: only the first signature stands before the refresh token is stored. */
    method IssueTokens(user: User, refreshId: string, accessId: string, signsRefresh: bool, signsAccess: bool)
      returns (r: Result<Pair, Refusal>)
      modifies this
      ensures refreshStore == if signsRefresh then old(refreshStore)[refreshId := RefreshFor(user, refreshId)]
                              else old(refreshStore)
      ensures r == if signsRefresh && signsAccess
                   then Success(Pair(AccessFor(user, accessId), RefreshFor(user, refreshId)))
                   else Failure(SigningFailed)
    {
      var refreshPayload := RefreshFor(user, refreshId);
      var accessPayload := AccessFor(user, accessId);
      if !signsRefresh {
        return Failure(SigningFailed);
      }
      refreshStore := refreshStore[refreshPayload.jti := refreshPayload];
      if !signsAccess {
        return Failure(SigningFailed);
      }
      r := Success(Pair(accessPayload, refreshPayload));
    }

    /** What a rotation does as soon as its token is verified. */
    method TakeRefreshToken(refreshPayload: Payload) returns (r: Result<User, Refusal>)
      modifies this
      ensures r == Redeem(old(refreshStore), refreshPayload)
      ensures refreshStore == Redeemed(old(refreshStore), refreshPayload)
      ensures refreshPayload.kind == Access ==> r == Failure(InvalidTokenType) && refreshStore == old(refreshStore)
      ensures refreshPayload.kind == Refresh && refreshPayload.jti !in old(refreshStore)
          ==> r == Failure(RefreshRevoked) && refreshStore == old(refreshStore)
      ensures refreshPayload.kind == Refresh && refreshPayload.jti in old(refreshStore)
          ==> r == Success(refreshPayload.user) && refreshStore == old(refreshStore) - {refreshPayload.jti}
    {
      if refreshPayload.kind != Refresh {
        return Failure(InvalidTokenType);
      }
      if refreshPayload.jti !in refreshStore {
        return Failure(RefreshRevoked);
      }
      refreshStore := refreshStore - {refreshPayload.jti};
      r := Success(refreshPayload.user);
    }

    /** An uninterrupted rotation; `verified` is the payload, or nothing when the token does not verify. */
    method RotateRefreshToken(verified: Option<Payload>, refreshId: string, accessId: string,
        signsRefresh: bool, signsAccess: bool)
      returns (r: Result<Pair, Refusal>)
      modifies this
      ensures verified.None? ==> r == Failure(BadToken) && refreshStore == old(refreshStore)
      ensures verified.Some? && Redeem(old(refreshStore), verified.value).Failure?
          ==> r == Failure(Redeem(old(refreshStore), verified.value).error) && refreshStore == old(refreshStore)
      ensures verified.Some? && Redeem(old(refreshStore), verified.value).Success?
          ==> var user := verified.value.user;
              && r == (if signsRefresh && signsAccess
                       then Success(Pair(AccessFor(user, accessId), RefreshFor(user, refreshId)))
                       else Failure(SigningFailed))
              && var rest := old(refreshStore) - {verified.value.jti};
                 refreshStore == if signsRefresh then rest[refreshId := RefreshFor(user, refreshId)] else rest
    {
      match verified
      case None => return Failure(BadToken);
      case Some(payload) =>
        var taken := TakeRefreshToken(payload);
        match taken
        case Failure(why) => return Failure(why);
        case Success(user) => r := IssueTokens(user, refreshId, accessId, signsRefresh, signsAccess);
    }
  }
}

module TokenRuns {
  import opened Wrappers
  import opened Tokens

  /** A call in flight, named by what it waits for, or how it ended. */
  datatype Task =
    | SigningRefresh(refresh: Payload, access: Payload)
    | SigningAccess(refresh: Payload, access: Payload)
    | Verifying(token: Payload)
    | Issued(pair: Pair)
    | Refused(why: Refusal)

  datatype Event =
    | LoggedIn(user: User)
    | Stored(payload: Payload)
    | Rotated(spent: Payload, next: Payload)

  /** A payload made under an id, and the login (the number of its call) that it descends from. */
  datatype Mint = Mint(payload: Payload, login: nat)

  datatype System = System(
    store: Store,
    tasks: seq<Task>,
    signed: set<Payload>,
    minted: map<string, Mint>,
    events: seq<Event>)

  const START := System(map[], [], {}, map[], [])

  datatype Action =
    | Login(user: User, refreshId: string, accessId: string)
    | Rotate(token: Payload)
    | Verified(task: nat, refreshId: string, accessId: string)
    | VerifyFails(task: nat)
    | Signed(task: nat)
    | SignFails(task: nat)

  /** Random ids never repeat. */
  predicate Fresh(s: System, refreshId: string, accessId: string) {
    refreshId != accessId && refreshId !in s.minted && accessId !in s.minted
  }

  function Minted(s: System, user: User, refreshId: string, accessId: string, login: nat): map<string, Mint> {
    s.minted[refreshId := Mint(RefreshFor(user, refreshId), login)][accessId := Mint(AccessFor(user, accessId), login)]
  }

  function LoginOf(s: System, id: string): nat {
    if id in s.minted then s.minted[id].login else |s.tasks|
  }

  function DoLogin(s: System, user: User, refreshId: string, accessId: string): System {
    s.(tasks := s.tasks + [SigningRefresh(RefreshFor(user, refreshId), AccessFor(user, accessId))],
       minted := Minted(s, user, refreshId, accessId, |s.tasks|),
       events := s.events + [LoggedIn(user)])
  }

  function DoVerified(s: System, t: nat, refreshId: string, accessId: string): System
    requires t < |s.tasks| && s.tasks[t].Verifying?
  {
    var token := s.tasks[t].token;
    match Redeem(s.store, token)
    case Failure(why) => s.(tasks := s.tasks[t := Refused(why)])
    case Success(user) =>
      s.(store := Redeemed(s.store, token),
         tasks := s.tasks[t := SigningRefresh(RefreshFor(user, refreshId), AccessFor(user, accessId))],
         minted := Minted(s, user, refreshId, accessId, LoginOf(s, token.jti)),
         events := s.events + [Rotated(token, RefreshFor(user, refreshId))])
  }

  function DoSigned(s: System, t: nat): System
    requires t < |s.tasks|
  {
    match s.tasks[t]
    case SigningRefresh(refresh, access) =>
      s.(store := s.store[refresh.jti := refresh],
         tasks := s.tasks[t := SigningAccess(refresh, access)],
         signed := s.signed + {refresh},
         events := s.events + [Stored(refresh)])
    case SigningAccess(refresh, access) =>
      s.(tasks := s.tasks[t := Issued(Pair(access, refresh))],
         signed := s.signed + {access})
    case _ => s
  }

  /** One step of one call. An action that cannot happen in the state changes nothing. */
  function Apply(s: System, a: Action): System {
    match a
    case Login(user, refreshId, accessId) =>
      if Fresh(s, refreshId, accessId) then DoLogin(s, user, refreshId, accessId) else s
    case Rotate(token) => s.(tasks := s.tasks + [Verifying(token)])
    case Verified(t, refreshId, accessId) =>
      if t < |s.tasks| && s.tasks[t].Verifying? && s.tasks[t].token in s.signed && Fresh(s, refreshId, accessId)
      then DoVerified(s, t, refreshId, accessId)
      else s
    case VerifyFails(t) =>
      if t < |s.tasks| && s.tasks[t].Verifying? then s.(tasks := s.tasks[t := Refused(BadToken)]) else s
    case Signed(t) => if t < |s.tasks| then DoSigned(s, t) else s
    case SignFails(t) =>
      if t < |s.tasks| && (s.tasks[t].SigningRefresh? || s.tasks[t].SigningAccess?)
      then s.(tasks := s.tasks[t := Refused(SigningFailed)])
      else s
  }

  function Run(actions: seq<Action>): System {
    if actions == [] then START else Apply(Run(actions[..|actions| - 1]), actions[|actions| - 1])
  }

  // --- the ledger ----------------------------------------------------------------------

  function StoredIds(events: seq<Event>): set<string> {
    if events == [] then {}
    else
      var rest, last := StoredIds(events[..|events| - 1]), events[|events| - 1];
      if last.Stored? then rest + {last.payload.jti} else rest
  }

  function RotatedIds(events: seq<Event>): set<string> {
    if events == [] then {}
    else
      var rest, last := RotatedIds(events[..|events| - 1]), events[|events| - 1];
      if last.Rotated? then rest + {last.spent.jti} else rest
  }

  function Users(events: seq<Event>): set<User> {
    if events == [] then {}
    else
      var rest, last := Users(events[..|events| - 1]), events[|events| - 1];
      if last.LoggedIn? then rest + {last.user} else rest
  }

  /** No refresh id is rotated a second time, and a rotation keeps the user's claims. */
  ghost predicate RotatesOnce(events: seq<Event>) {
    if events == [] then true
    else
      var init, last := events[..|events| - 1], events[|events| - 1];
      RotatesOnce(init)
      && (last.Rotated? ==> last.spent.jti !in RotatedIds(init) && last.next.user == last.spent.user)
  }

  lemma OneMore(events: seq<Event>, e: Event)
    ensures StoredIds(events + [e]) == StoredIds(events) + (if e.Stored? then {e.payload.jti} else {})
    ensures RotatedIds(events + [e]) == RotatedIds(events) + (if e.Rotated? then {e.spent.jti} else {})
    ensures Users(events + [e]) == Users(events) + (if e.LoggedIn? then {e.user} else {})
    ensures RotatesOnce(events + [e])
       <==> RotatesOnce(events)
            && (e.Rotated? ==> e.spent.jti !in RotatedIds(events) && e.next.user == e.spent.user)
  {
    assert (events + [e])[..|events + [e]| - 1] == events;
  }

  // --- what every step keeps -------------------------------------------------------------

  predicate Is(s: System, p: Payload) {
    p.jti in s.minted && s.minted[p.jti].payload == p
  }

  predicate IsRefresh(s: System, p: Payload) {
    Is(s, p) && p.kind == Refresh
  }

  /** Whatever is stored, signed or being signed was made once, under its own id, for a user who logged in. */
  ghost predicate Known(s: System) {
    && (forall id :: id in s.store ==> s.store[id].jti == id && IsRefresh(s, s.store[id]) && s.store[id] in s.signed)
    && (forall p :: p in s.signed ==> Is(s, p))
    && (forall t :: 0 <= t < |s.tasks| && s.tasks[t].SigningRefresh?
          ==> IsRefresh(s, s.tasks[t].refresh) && Is(s, s.tasks[t].access) && s.tasks[t].access.kind == Access)
    && (forall t :: 0 <= t < |s.tasks| && s.tasks[t].SigningAccess?
          ==> Is(s, s.tasks[t].access) && s.tasks[t].access.kind == Access)
    && (forall id :: id in s.minted ==> s.minted[id].payload.user in Users(s.events))
  }

  /** No two stored refresh tokens descend from one login. */
  ghost predicate StoredApart(s: System) {
    && (forall id :: id in s.minted ==> s.minted[id].login < |s.tasks|)
    && (forall i, j :: i in s.store && j in s.store && LoginOf(s, i) == LoginOf(s, j) ==> i == j)
  }

  /** A refresh token being signed shares its login with none that is stored or being signed as well. */
  ghost predicate PendingApart(s: System) {
    && (forall i, t :: i in s.store && 0 <= t < |s.tasks| && s.tasks[t].SigningRefresh?
          ==> LoginOf(s, i) != LoginOf(s, s.tasks[t].refresh.jti))
    && (forall t, u :: 0 <= t < u < |s.tasks| && s.tasks[t].SigningRefresh? && s.tasks[u].SigningRefresh?
          ==> LoginOf(s, s.tasks[t].refresh.jti) != LoginOf(s, s.tasks[u].refresh.jti))
  }

  /** The store against the ledger of everything stored and rotated. */
  ghost predicate Ledger(s: System) {
    && s.store.Keys == StoredIds(s.events) - RotatedIds(s.events)
    && RotatedIds(s.events) <= StoredIds(s.events) <= s.minted.Keys
    && RotatesOnce(s.events)
    && (forall p :: p in s.signed && p.kind == Refresh ==> p.jti in StoredIds(s.events))
    && (forall t :: 0 <= t < |s.tasks| && s.tasks[t].SigningRefresh?
          ==> s.tasks[t].refresh.jti !in StoredIds(s.events))
  }

  ghost predicate Good(s: System) {
    Known(s) && StoredApart(s) && PendingApart(s) && Ledger(s)
  }

  lemma LoginKeepsKnown(s: System, user: User, refreshId: string, accessId: string)
    requires Good(s) && Fresh(s, refreshId, accessId)
    ensures Known(DoLogin(s, user, refreshId, accessId))
  {
    OneMore(s.events, LoggedIn(user));
  }

  lemma LoginKeepsStoredApart(s: System, user: User, refreshId: string, accessId: string)
    requires Good(s) && Fresh(s, refreshId, accessId)
    ensures StoredApart(DoLogin(s, user, refreshId, accessId))
  {
    MintKeepsLogins(s, user, refreshId, accessId, |s.tasks|);
  }

  lemma LoginKeepsPendingApart(s: System, user: User, refreshId: string, accessId: string)
    requires Good(s) && Fresh(s, refreshId, accessId)
    ensures PendingApart(DoLogin(s, user, refreshId, accessId))
  {
    MintKeepsLogins(s, user, refreshId, accessId, |s.tasks|);
  }

  lemma LoginKeepsLedger(s: System, user: User, refreshId: string, accessId: string)
    requires Good(s) && Fresh(s, refreshId, accessId)
    ensures Ledger(DoLogin(s, user, refreshId, accessId))
  {
    OneMore(s.events, LoggedIn(user));
  }

  /** Making new ids leaves the login of every id that is stored or being signed as it was. */
  lemma MintKeepsLogins(s: System, user: User, refreshId: string, accessId: string, login: nat)
    requires Known(s) && Fresh(s, refreshId, accessId)
    ensures forall id :: id in s.store
              ==> id in s.minted && Minted(s, user, refreshId, accessId, login)[id] == s.minted[id]
    ensures forall t :: 0 <= t < |s.tasks| && s.tasks[t].SigningRefresh? ==>
                          s.tasks[t].refresh.jti in s.minted &&
                          Minted(s, user, refreshId, accessId, login)[s.tasks[t].refresh.jti]
                          == s.minted[s.tasks[t].refresh.jti]
  {
  }

  lemma RedeemKeepsKnown(s: System, t: nat, refreshId: string, accessId: string)
    requires Good(s) && Fresh(s, refreshId, accessId)
    requires t < |s.tasks| && s.tasks[t].Verifying? && s.tasks[t].token in s.signed
    ensures Known(DoVerified(s, t, refreshId, accessId))
  {
    var token := s.tasks[t].token;
    OneMore(s.events, Rotated(token, RefreshFor(token.user, refreshId)));
  }

  lemma RedeemKeepsStoredApart(s: System, t: nat, refreshId: string, accessId: string)
    requires Good(s) && Fresh(s, refreshId, accessId)
    requires t < |s.tasks| && s.tasks[t].Verifying? && s.tasks[t].token in s.signed
    ensures StoredApart(DoVerified(s, t, refreshId, accessId))
  {
    var token := s.tasks[t].token;
    MintKeepsLogins(s, token.user, refreshId, accessId, LoginOf(s, token.jti));
  }

  lemma RedeemKeepsPendingApart(s: System, t: nat, refreshId: string, accessId: string)
    requires Good(s) && Fresh(s, refreshId, accessId)
    requires t < |s.tasks| && s.tasks[t].Verifying? && s.tasks[t].token in s.signed
    ensures PendingApart(DoVerified(s, t, refreshId, accessId))
  {
    var token := s.tasks[t].token;
    var login := LoginOf(s, token.jti);
    MintKeepsLogins(s, token.user, refreshId, accessId, login);
    var s' := DoVerified(s, t, refreshId, accessId);
    if Redeem(s.store, token).Success? {
      forall i | i in s'.store ensures LoginOf(s', i) == LoginOf(s, i) != login {
        assert i in s.store;
      }
      forall u | 0 <= u < |s.tasks| && s.tasks[u].SigningRefresh?
        ensures LoginOf(s', s.tasks[u].refresh.jti) == LoginOf(s, s.tasks[u].refresh.jti) != login
      {
        assert token.jti in s.store;
      }
      assert s'.tasks[t].refresh.jti == refreshId && LoginOf(s', refreshId) == login;
    }
  }

  lemma RedeemKeepsLedger(s: System, t: nat, refreshId: string, accessId: string)
    requires Good(s) && Fresh(s, refreshId, accessId)
    requires t < |s.tasks| && s.tasks[t].Verifying? && s.tasks[t].token in s.signed
    ensures Ledger(DoVerified(s, t, refreshId, accessId))
  {
    var token := s.tasks[t].token;
    OneMore(s.events, Rotated(token, RefreshFor(token.user, refreshId)));
  }

  lemma SignedKeepsKnown(s: System, t: nat)
    requires Good(s) && t < |s.tasks|
    ensures Known(DoSigned(s, t))
  {
    if s.tasks[t].SigningRefresh? {
      OneMore(s.events, Stored(s.tasks[t].refresh));
    }
  }

  lemma SignedKeepsStoredApart(s: System, t: nat)
    requires Good(s) && t < |s.tasks|
    ensures StoredApart(DoSigned(s, t))
  {
  }

  lemma SignedKeepsPendingApart(s: System, t: nat)
    requires Good(s) && t < |s.tasks|
    ensures PendingApart(DoSigned(s, t))
  {
  }

  lemma SignedKeepsLedger(s: System, t: nat)
    requires Good(s) && t < |s.tasks|
    ensures Ledger(DoSigned(s, t))
  {
    if s.tasks[t].SigningRefresh? {
      OneMore(s.events, Stored(s.tasks[t].refresh));
    }
  }

  /** A call that starts to verify, or ends, changes nothing that the others rely on. */
  /** No task is new among those that sign. */
  ghost predicate NoneSignsAnew(s: System, tasks: seq<Task>) {
    && |s.tasks| <= |tasks|
    && forall t :: 0 <= t < |tasks| && (tasks[t].SigningRefresh? || tasks[t].SigningAccess?) ==>
                     t < |s.tasks| && tasks[t] == s.tasks[t]
  }

  lemma IdleTasksStayApart(s: System, tasks: seq<Task>)
    requires Good(s) && NoneSignsAnew(s, tasks)
    ensures PendingApart(s.(tasks := tasks)) && StoredApart(s.(tasks := tasks))
  {
  }

  lemma IdleTasksKeepGood(s: System, tasks: seq<Task>)
    requires Good(s) && NoneSignsAnew(s, tasks)
    ensures Good(s.(tasks := tasks))
  {
    IdleTasksStayApart(s, tasks);
    assert Known(s.(tasks := tasks));
    assert Ledger(s.(tasks := tasks));
  }

  lemma {:induction false} EveryRunIsGood(actions: seq<Action>)
    ensures Good(Run(actions))
  {
    if actions != [] {
      EveryRunIsGood(actions[..|actions| - 1]);
      var s := Run(actions[..|actions| - 1]);
      match actions[|actions| - 1]
      case Login(user, refreshId, accessId) =>
        if Fresh(s, refreshId, accessId) {
          LoginKeepsKnown(s, user, refreshId, accessId);
          LoginKeepsStoredApart(s, user, refreshId, accessId);
          LoginKeepsPendingApart(s, user, refreshId, accessId);
          LoginKeepsLedger(s, user, refreshId, accessId);
        }
      case Rotate(token) => IdleTasksKeepGood(s, s.tasks + [Verifying(token)]);
      case Verified(t, refreshId, accessId) =>
        if t < |s.tasks| && s.tasks[t].Verifying? && s.tasks[t].token in s.signed && Fresh(s, refreshId, accessId) {
          RedeemKeepsKnown(s, t, refreshId, accessId);
          RedeemKeepsStoredApart(s, t, refreshId, accessId);
          RedeemKeepsPendingApart(s, t, refreshId, accessId);
          RedeemKeepsLedger(s, t, refreshId, accessId);
        }
      case VerifyFails(t) => if t < |s.tasks| { IdleTasksKeepGood(s, s.tasks[t := Refused(BadToken)]); }
      case Signed(t) =>
        if t < |s.tasks| {
          SignedKeepsKnown(s, t);
          SignedKeepsStoredApart(s, t);
          SignedKeepsPendingApart(s, t);
          SignedKeepsLedger(s, t);
        }
      case SignFails(t) => if t < |s.tasks| { IdleTasksKeepGood(s, s.tasks[t := Refused(SigningFailed)]); }
    }
  }

  // --- what a caller gets, whatever the interleaving ----------------------------------------

  lemma {:induction false} EarlierRotation(events: seq<Event>, i: nat)
    requires i < |events| && events[i].Rotated?
    ensures events[i].spent.jti in RotatedIds(events)
  {
    if i < |events| - 1 {
      EarlierRotation(events[..|events| - 1], i);
    }
  }

  lemma {:induction false} RotationsDiffer(events: seq<Event>, i: nat, j: nat)
    requires RotatesOnce(events)
    requires i < j < |events| && events[i].Rotated? && events[j].Rotated?
    ensures events[i].spent.jti != events[j].spent.jti
  {
    if j < |events| - 1 {
      RotationsDiffer(events[..|events| - 1], i, j);
    } else {
      EarlierRotation(events[..|events| - 1], i);
    }
  }

  /** No refresh token is rotated twice, however the calls interleave. */
  lemma EachTokenRotatesAtMostOnce(actions: seq<Action>, i: nat, j: nat)
    requires i < j < |Run(actions).events|
    requires Run(actions).events[i].Rotated? && Run(actions).events[j].Rotated?
    ensures Run(actions).events[i].spent.jti != Run(actions).events[j].spent.jti
  {
    EveryRunIsGood(actions);
    RotationsDiffer(Run(actions).events, i, j);
  }

  /** A signed token is accepted exactly if it is a refresh token that was never rotated. */
  lemma RedeemsExactlyUnrotated(actions: seq<Action>, token: Payload)
    requires token in Run(actions).signed
    ensures Redeem(Run(actions).store, token).Success?
       <==> token.kind == Refresh && token.jti !in RotatedIds(Run(actions).events)
    ensures token.jti in Run(actions).store ==> Run(actions).store[token.jti] == token
  {
    EveryRunIsGood(actions);
  }

  lemma {:induction false} RotatedIdsAre(events: seq<Event>, id: string)
    ensures id in RotatedIds(events)
       <==> exists i :: 0 <= i < |events| && events[i].Rotated? && events[i].spent.jti == id
  {
    if events != [] {
      RotatedIdsAre(events[..|events| - 1], id);
    }
  }

  /** An access token is refused for its kind, a refresh token that was spent as revoked, and no other is refused. */
  lemma RefusesExactlySpent(actions: seq<Action>, token: Payload)
    requires token in Run(actions).signed
    ensures var events := Run(actions).events;
      var spent := exists i :: 0 <= i < |events| && events[i].Rotated? && events[i].spent.jti == token.jti;
      Redeem(Run(actions).store, token)
      == if token.kind == Access then Failure(InvalidTokenType)
         else if spent then Failure(RefreshRevoked)
         else Success(token.user)
  {
    EveryRunIsGood(actions);
    RotatedIdsAre(Run(actions).events, token.jti);
  }

  /** A redeemed token is gone from the store at once, and the next pair is for its user. */
  lemma RedeemingSpends(s: System, t: nat, refreshId: string, accessId: string)
    requires t < |s.tasks| && s.tasks[t].Verifying?
    requires s.tasks[t].token.kind == Refresh && s.tasks[t].token.jti in s.store
    ensures var token, after := s.tasks[t].token, DoVerified(s, t, refreshId, accessId);
      var refresh, access := Payload(token.user, Refresh, refreshId), Payload(token.user, Access, accessId);
      && after.store == s.store - {token.jti} && after.signed == s.signed
      && after.tasks == s.tasks[t := SigningRefresh(refresh, access)]
      && after.events == s.events + [Rotated(token, refresh)]
  {
  }

  /** A refresh and an access token of one user. */
  predicate MakePair(refresh: Payload, access: Payload) {
    refresh.kind == Refresh && access.kind == Access && refresh.user == access.user
  }

  /** A call signs both tokens of a pair, the refresh token first, and answers with them in their places. */
  ghost predicate Paired(task: Task, signed: set<Payload>) {
    match task
    case SigningRefresh(refresh, access) => MakePair(refresh, access)
    case SigningAccess(refresh, access) => MakePair(refresh, access) && refresh in signed
    case Issued(pair) => MakePair(pair.refresh, pair.access) && pair.refresh in signed && pair.access in signed
    case _ => true
  }

  lemma {:induction false} TasksArePaired(actions: seq<Action>)
    ensures AllPaired(Run(actions))
  {
    if actions != [] {
      TasksArePaired(actions[..|actions| - 1]);
      StepKeepsPairs(Run(actions[..|actions| - 1]), actions[|actions| - 1]);
    }
  }

  lemma StepKeepsPairs(s: System, a: Action)
    requires AllPaired(s)
    ensures AllPaired(Apply(s, a))
  {
    var after := Apply(s, a);
    forall t | 0 <= t < |after.tasks| ensures Paired(after.tasks[t], after.signed) {
      if t < |s.tasks| {
        assert Paired(s.tasks[t], s.signed);
      }
    }
  }

  ghost predicate AllPaired(s: System) {
    forall t | 0 <= t < |s.tasks| :: Paired(s.tasks[t], s.signed)
  }

  /** Every pair that is issued is a signed access token and a signed refresh token of one user. */
  lemma IssuedPairsAreSigned(actions: seq<Action>, t: nat)
    requires t < |Run(actions).tasks| && Run(actions).tasks[t].Issued?
    ensures var pair := Run(actions).tasks[t].pair;
      && pair.refresh.kind == Refresh && pair.access.kind == Access && pair.refresh.user == pair.access.user
      && pair.refresh in Run(actions).signed && pair.access in Run(actions).signed
  {
    TasksArePaired(actions);
    assert Paired(Run(actions).tasks[t], Run(actions).signed);
  }

  /** A token may be forged or a signature fail at any time, and a call that waits for one ends with it. */
  lemma AwaitsMayFail(s: System, t: nat)
    requires t < |s.tasks|
    ensures s.tasks[t].Verifying? ==> Apply(s, VerifyFails(t)) == s.(tasks := s.tasks[t := Refused(BadToken)])
    ensures s.tasks[t].SigningRefresh? || s.tasks[t].SigningAccess? ==>
              Apply(s, SignFails(t)) == s.(tasks := s.tasks[t := Refused(SigningFailed)])
  {
  }

  /** Every signed token may be presented and verified, and every login begins to sign a pair. */
  lemma CallsBegin(s: System, user: User, token: Payload, refreshId: string, accessId: string)
    requires refreshId != accessId && refreshId !in s.minted && accessId !in s.minted
    ensures var pair := SigningRefresh(Payload(user, Refresh, refreshId), Payload(user, Access, accessId));
      Apply(s, Login(user, refreshId, accessId)).tasks == s.tasks + [pair]
    ensures token in s.signed ==>
              var asked := Apply(s, Rotate(token));
              && asked == s.(tasks := s.tasks + [Verifying(token)])
              && Apply(asked, Verified(|s.tasks|, refreshId, accessId))
                 == DoVerified(asked, |s.tasks|, refreshId, accessId)
  {
  }

  /** Signing the refresh token stores it; signing the access token then gives the pair out. */
  lemma SigningGoesOn(s: System, t: nat)
    requires t < |s.tasks|
    ensures s.tasks[t].SigningRefresh? ==>
              var p, after := s.tasks[t].refresh, Apply(s, Signed(t));
              && after.store == s.store[p.jti := p] && after.signed == s.signed + {p}
              && after.tasks == s.tasks[t := SigningAccess(p, s.tasks[t].access)]
    ensures s.tasks[t].SigningAccess? ==>
              var p, after := s.tasks[t].access, Apply(s, Signed(t));
              && after.store == s.store && after.signed == s.signed + {p}
              && after.tasks == s.tasks[t := Issued(Pair(p, s.tasks[t].refresh))]
  {
  }

  /** The store holds exactly the refresh ids ever stored and not rotated since. */
  lemma StoreIsStoredMinusRotated(actions: seq<Action>)
    ensures Run(actions).store.Keys == StoredIds(Run(actions).events) - RotatedIds(Run(actions).events)
  {
    EveryRunIsGood(actions);
  }

  /** Of all tokens that descend from one login, at most one is stored. */
  lemma OneStoredTokenPerLogin(actions: seq<Action>, i: string, j: string)
    requires i in Run(actions).store && j in Run(actions).store
    requires LoginOf(Run(actions), i) == LoginOf(Run(actions), j)
    ensures i == j
  {
    EveryRunIsGood(actions);
  }

  /** Every token's claims are those of a user who logged in. */
  lemma ClaimsComeFromALogin(actions: seq<Action>, token: Payload)
    requires token in Run(actions).signed
    ensures token.user in Users(Run(actions).events)
  {
    EveryRunIsGood(actions);
  }

  /** Each token of the chain was rotated into the next. */
  ghost predicate IsChain(events: seq<Event>, chain: seq<Payload>) {
    forall k :: 0 < k < |chain| ==> Rotated(chain[k - 1], chain[k]) in events
  }

  lemma {:induction false} RotationKeepsClaims(events: seq<Event>, spent: Payload, next: Payload)
    requires RotatesOnce(events) && Rotated(spent, next) in events
    ensures next.user == spent.user
  {
    var init, last := events[..|events| - 1], events[|events| - 1];
    assert events == init + [last];
    if last != Rotated(spent, next) {
      RotationKeepsClaims(init, spent, next);
    }
  }

  /** The user's claims are the same at both ends of any chain of rotations. */
  lemma {:induction false} ClaimsSurviveChains(actions: seq<Action>, chain: seq<Payload>)
    requires chain != [] && IsChain(Run(actions).events, chain)
    ensures chain[|chain| - 1].user == chain[0].user
    decreases |chain|
  {
    if |chain| > 1 {
      var init := chain[..|chain| - 1];
      assert forall k :: 0 <= k < |init| ==> init[k] == chain[k];
      ClaimsSurviveChains(actions, init);
      EveryRunIsGood(actions);
      RotationKeepsClaims(Run(actions).events, chain[|chain| - 2], chain[|chain| - 1]);
    }
  }
}
