/** How two users form a family: public and private invitations racing to create it, and leaving. */
module Families {
  import opened Basics

  type User = string
  type Email = string
  type Id = string

  datatype Profile = Profile(email: Email, active: bool)

  datatype Status = PENDING | ACCEPTED | REJECTED | CANCELLED | EXPIRED

  datatype Public = Public(sender: User, recipient: User, status: Status, expiresAt: int) {
    predicate Touches(a: User, b: User) {
      sender == a || sender == b || recipient == a || recipient == b
    }

    predicate Between(a: User, b: User) {
      (sender == a && recipient == b) || (sender == b && recipient == a)
    }
  }

  datatype Private = Private(
    sender: User, recipientEmail: Email, status: Status, useCount: nat, acceptedBy: Option<User>,
    createdAt: int, expiresAt: int)

  datatype FamilyStatus = ACTIVE | ARCHIVED

  /** A leave that has deleted its membership row and counted the others, and has not committed. */
  datatype Leaving = Leaving(family: Id, others: nat)

  /** The committed tables. `members` is keyed by user, as its unique index is; a private invitation is
      known by the hash of its token. `leaving` holds the deleted rows other transactions still see. */
  datatype Tables = Tables(
    users: map<User, Profile>,
    members: map<User, Id>,
    families: map<Id, FamilyStatus>,
    public: map<Id, Public>,
    private: map<Id, Private>,
    leaving: map<User, Leaving>)

  datatype Refusal = NotFound | Forbidden | Gone | Conflict | TooManyRequests

  predicate Active(y: Tables, u: User) {
    u in y.users && y.users[u].active
  }

  function MembersOf(y: Tables, family: Id): set<User> {
    set u | u in y.members && y.members[u] == family
  }

  // ----- updateMany -----

  function CancelPublic(rows: map<Id, Public>, a: User, b: User): map<Id, Public> {
    map k | k in rows ::
      if rows[k].status.PENDING? && rows[k].Touches(a, b) then rows[k].(status := CANCELLED) else rows[k]
  }

  function CancelSentPublic(rows: map<Id, Public>, a: User): map<Id, Public> {
    map k | k in rows ::
      if rows[k].status.PENDING? && rows[k].sender == a then rows[k].(status := CANCELLED) else rows[k]
  }

  function CancelSentTo(rows: map<Id, Private>, sender: User, email: Email): map<Id, Private> {
    map k | k in rows ::
      if rows[k].status.PENDING? && rows[k].sender == sender && rows[k].recipientEmail == email
      then rows[k].(status := CANCELLED) else rows[k]
  }

  function CancelPrivate(rows: map<Id, Private>, users: set<User>, emails: set<Email>): map<Id, Private> {
    map k | k in rows ::
      if rows[k].status.PENDING? && (rows[k].sender in users || rows[k].recipientEmail in emails)
      then rows[k].(status := CANCELLED) else rows[k]
  }

  function ExpiredPublic(rows: map<Id, Public>, now: int): map<Id, Public> {
    map k | k in rows ::
      if rows[k].status.PENDING? && rows[k].expiresAt <= now then rows[k].(status := EXPIRED) else rows[k]
  }

  function ExpiredPrivate(rows: map<Id, Private>, now: int): map<Id, Private> {
    map k | k in rows ::
      if rows[k].status.PENDING? && rows[k].expiresAt <= now then rows[k].(status := EXPIRED) else rows[k]
  }

  /** family.create with its two members. */
  function Founded(y: Tables, family: Id, a: User, b: User): Tables {
    y.(members := y.members[a := family][b := family], families := y.families[family := ACTIVE])
  }

  // ----- the operations, each one transaction -----

  /** The unique index over pending pairs, in either direction. */
  predicate HasPending(rows: map<Id, Public>, a: User, b: User) {
    exists k :: k in rows && rows[k].status.PENDING? && rows[k].Between(a, b)
  }

  function Create(y: Tables, id: Id, sender: User, recipient: User, expiresAt: int): Result<Tables, Refusal> {
    if sender == recipient then Err(Conflict)
    else if !Active(y, sender) || !Active(y, recipient) then Err(NotFound)
    else if sender in y.members || recipient in y.members then Err(Conflict)
    else if id in y.public || HasPending(y.public, sender, recipient) then Err(Conflict)
    else Ok(y.(public := y.public[id := Public(sender, recipient, PENDING, expiresAt)]))
  }

  /** Under the cooldown: an earlier pending invitation to the address is too recent. */
  predicate TooSoon(y: Tables, sender: User, email: Email, now: int, cooldown: nat) {
    exists k :: k in y.private && y.private[k].status.PENDING? && y.private[k].sender == sender &&
      y.private[k].recipientEmail == email && y.private[k].createdAt + cooldown - now > 0
  }

  function CreatePrivate(y: Tables, token: Id, sender: User, email: Email, now: int, cooldown: nat, expiresAt: int)
    : Result<Tables, Refusal>
  {
    if !Active(y, sender) then Err(NotFound)
    else if sender in y.members || y.users[sender].email == email then Err(Conflict)
    else if TooSoon(y, sender, email, now, cooldown) then Err(TooManyRequests)
    else if token in y.private then Err(Conflict)
    else
      var row := Private(sender, email, PENDING, 0, None, now, expiresAt);
      Ok(y.(private := CancelSentTo(y.private, sender, email)[token := row]))
  }

  function AcceptPrivate(y: Tables, token: Id, user: User, family: Id): Result<Tables, Refusal> {
    if token !in y.private then Err(NotFound)
    else
      var current := y.private[token];
      if current.status.EXPIRED? then Err(Gone)
      else if !current.status.PENDING? || current.useCount > 0 then Err(Conflict)
      else if !Active(y, current.sender) || !Active(y, user) then Err(NotFound)
      else if y.users[user].email != current.recipientEmail then Err(Forbidden)
      else if current.sender == user then Err(Conflict)
      else if current.sender in y.members || user in y.members || family in y.families then Err(Conflict)
      else
        var emails := {y.users[current.sender].email, y.users[user].email};
        Ok(Founded(y, family, current.sender, user).(
           public := CancelPublic(y.public, current.sender, user),
           private := CancelPrivate(y.private, {current.sender, user}, emails)[
             token := current.(status := ACCEPTED, acceptedBy := Some(user), useCount := current.useCount + 1)]))
  }

  function Respond(y: Tables, id: Id, user: User, accept: bool, family: Id): Result<Tables, Refusal> {
    if id !in y.public then Err(NotFound)
    else
      var current := y.public[id];
      if current.recipient != user then Err(Forbidden)
      else if current.status.EXPIRED? then Err(Gone)
      else if !current.status.PENDING? then Err(Conflict)
      else if !accept then Ok(y.(public := y.public[id := current.(status := REJECTED)]))
      else if current.sender in y.members || current.recipient in y.members || family in y.families then Err(Conflict)
      else
        Ok(Founded(y, family, current.sender, current.recipient).(
           public := CancelPublic(y.public, current.sender, current.recipient)[id := current.(status := ACCEPTED)]))
  }

  function Cancel(y: Tables, id: Id, user: User): Result<Tables, Refusal> {
    if id !in y.public then Err(NotFound)
    else if y.public[id].sender != user then Err(Forbidden)
    else if !y.public[id].status.PENDING? then Err(Conflict)
    else Ok(y.(public := y.public[id := y.public[id].(status := CANCELLED)]))
  }

  function RevokePrivate(y: Tables, token: Id, user: User): Result<Tables, Refusal> {
    if token !in y.private then Err(NotFound)
    else if y.private[token].sender != user then Err(Forbidden)
    else if !y.private[token].status.PENDING? then Err(Conflict)
    else Ok(y.(private := y.private[token := y.private[token].(status := CANCELLED)]))
  }

  /** The first statements of a leave: delete the row, which nobody else can then delete, and count the
      members left. Deletions of other leaves under way are not seen. */
  function StartLeave(y: Tables, user: User): Result<Tables, Refusal> {
    if user !in y.members || user in y.leaving || y.members[user] !in y.families || !y.families[y.members[user]].ACTIVE?
    then Err(Forbidden)
    else
      var family := y.members[user];
      Ok(y.(leaving := y.leaving[user := Leaving(family, |MembersOf(y, family) - {user}|)]))
  }

  /** The rest of a leave and its commit. */
  function FinishLeave(y: Tables, user: User): Result<Tables, Refusal> {
    if user !in y.leaving then Err(NotFound)
    else
      var k := y.leaving[user];
      Ok(y.(
         members := y.members - {user},
         leaving := y.leaving - {user},
         families := if k.others == 0 && k.family in y.families then y.families[k.family := ARCHIVED] else y.families,
         public := CancelSentPublic(y.public, user)))
  }

  /** A whole leave with nothing interleaved. */
  function Leave(y: Tables, user: User): Result<Tables, Refusal> {
    var started := StartLeave(y, user);
    if started.Err? then started else FinishLeave(started.value, user)
  }

  // ----- runs -----

  datatype Event =
    | SetUser(user: User, profile: Profile)   // registration, deactivation, a new e-mail address
    | DoCreate(id: Id, sender: User, recipient: User, expiresAt: int)
    | DoCreatePrivate(token: Id, sender: User, email: Email, now: int, cooldown: nat, expiresAt: int)
    | DoAcceptPrivate(token: Id, user: User, family: Id)
    | DoRespond(id: Id, user: User, accept: bool, family: Id)
    | DoCancel(id: Id, user: User)
    | DoRevoke(token: Id, user: User)
    | ExpirePublic(now: int)
    | ExpirePrivate(now: int)
    | BeginLeave(user: User)
    | CommitLeave(user: User)
    | AbortLeave(user: User)

  function Attempt(y: Tables, e: Event): Result<Tables, Refusal> {
    match e
    case SetUser(u, p) => Ok(y.(users := y.users[u := p]))
    case DoCreate(id, a, b, expiresAt) => Create(y, id, a, b, expiresAt)
    case DoCreatePrivate(t, a, email, now, cooldown, expiresAt) =>
      CreatePrivate(y, t, a, email, now, cooldown, expiresAt)
    case DoAcceptPrivate(t, u, f) => AcceptPrivate(y, t, u, f)
    case DoRespond(id, u, accept, f) => Respond(y, id, u, accept, f)
    case DoCancel(id, u) => Cancel(y, id, u)
    case DoRevoke(t, u) => RevokePrivate(y, t, u)
    case ExpirePublic(now) => Ok(y.(public := ExpiredPublic(y.public, now)))
    case ExpirePrivate(now) => Ok(y.(private := ExpiredPrivate(y.private, now)))
    case BeginLeave(u) => StartLeave(y, u)
    case CommitLeave(u) => FinishLeave(y, u)
    case AbortLeave(u) => Ok(y.(leaving := y.leaving - {u}))
  }

  function Step(y: Tables, e: Event): Tables {
    var r := Attempt(y, e);
    if r.Ok? then r.value else y
  }

  function Run(events: seq<Event>): Tables {
    if events == [] then Tables(map[], map[], map[], map[], map[], map[])
    else Step(Run(events[..|events| - 1]), events[|events| - 1])
  }

  // ----- the invariant -----

  predicate SamePair(r: Public, s: Public) {
    r.status.PENDING? && s.status.PENDING? && s.Between(r.sender, r.recipient)
  }

  predicate SameAddress(r: Private, s: Private) {
    r.status.PENDING? && s.status.PENDING? && r.sender == s.sender && r.recipientEmail == s.recipientEmail
  }

  /** A pending public invitation is between two different users outside any family, and is the only
      one between them. */
  ghost predicate PublicOk(y: Tables) {
    && (forall k :: k in y.public && y.public[k].status.PENDING? ==>
          y.public[k].sender !in y.members && y.public[k].recipient !in y.members &&
            y.public[k].sender != y.public[k].recipient)
    && (forall j, k :: j in y.public && k in y.public && SamePair(y.public[j], y.public[k]) ==> j == k)
  }

  /** A private invitation has been used once exactly when it is accepted, and a sender has at most one
      pending per address. */
  ghost predicate PrivateOk(y: Tables) {
    && (forall k :: k in y.private ==>
          y.private[k].useCount == (if y.private[k].status.ACCEPTED? then 1 else 0) &&
          (y.private[k].acceptedBy.Some? <==> y.private[k].status.ACCEPTED?))
    && (forall j, k :: j in y.private && k in y.private && SameAddress(y.private[j], y.private[k]) ==> j == k)
  }

  /** Every membership is in a known family, no family has more than two members, and whoever is leaving
      is still seen as a member of the family left. */
  ghost predicate FamiliesOk(y: Tables) {
    && (forall u :: u in y.members ==> y.members[u] in y.families)
    && (forall f :: f in y.families ==> |MembersOf(y, f)| <= 2)
    && (forall u :: u in y.leaving ==> u in y.members && y.members[u] == y.leaving[u].family)
  }

  ghost predicate TablesOk(y: Tables) {
    PublicOk(y) && PrivateOk(y) && FamiliesOk(y)
  }

  lemma FoundingMakesTwo(y: Tables, z: Tables, family: Id, a: User, b: User)
    requires FamiliesOk(y) && family !in y.families && a != b && a !in y.members && b !in y.members
    requires z.members == y.members[a := family][b := family] && z.families == y.families[family := ACTIVE]
    requires z.leaving == y.leaving
    ensures FamiliesOk(z) && MembersOf(z, family) == {a, b}
    ensures forall f :: f in y.families ==> MembersOf(z, f) == MembersOf(y, f)
  {
    assert MembersOf(z, family) == {a, b};
    forall f | f in y.families
      ensures MembersOf(z, f) == MembersOf(y, f)
    {
    }
  }

  /** Using a pending row once while others only leave PENDING keeps the private rows sound. */
  lemma OneIsUsed(y: Tables, z: Tables, token: Id, user: User)
    requires PrivateOk(y) && z.private.Keys == y.private.Keys && token in y.private
    requires forall k :: k in z.private && k != token ==> Closed(y.private[k], z.private[k])
    requires
      var r := z.private[token];
      r.status == ACCEPTED && r.acceptedBy == Some(user) && r.useCount == 1
    ensures PrivateOk(z)
  {
    forall j, k | j in z.private && k in z.private && SameAddress(z.private[j], z.private[k])
      ensures j == k
    {
      assert y.private[j] == z.private[j] && y.private[k] == z.private[k];
    }
  }

  lemma AcceptPrivateKeepsPrivate(y: Tables, token: Id, user: User, family: Id)
    requires PrivateOk(y) && AcceptPrivate(y, token, user, family).Ok?
    ensures PrivateOk(AcceptPrivate(y, token, user, family).value)
  {
    OneIsUsed(y, AcceptPrivate(y, token, user, family).value, token, user);
  }

  /** When two users enter a family and no row that touches them stays pending, the public rows stay sound. */
  lemma ClearedPublicIsOk(y: Tables, z: Tables, a: User, b: User)
    requires PublicOk(y) && z.public.Keys == y.public.Keys && z.members.Keys == y.members.Keys + {a, b}
    requires forall k :: k in z.public && z.public[k].status.PENDING? ==>
               z.public[k] == y.public[k] && !z.public[k].Touches(a, b)
    ensures PublicOk(z)
  {
    forall j, k | j in z.public && k in z.public && SamePair(z.public[j], z.public[k])
      ensures j == k
    {
      assert z.public[j] == y.public[j] && z.public[k] == y.public[k];
    }
  }

  lemma AcceptPrivateKeepsPublic(y: Tables, token: Id, user: User, family: Id)
    requires PublicOk(y) && AcceptPrivate(y, token, user, family).Ok?
    ensures PublicOk(AcceptPrivate(y, token, user, family).value)
  {
    ClearedPublicIsOk(y, AcceptPrivate(y, token, user, family).value, y.private[token].sender, user);
  }

  lemma AcceptPrivateKeeps(y: Tables, token: Id, user: User, family: Id)
    requires TablesOk(y) && AcceptPrivate(y, token, user, family).Ok?
    ensures TablesOk(AcceptPrivate(y, token, user, family).value)
  {
    AcceptPrivateKeepsPrivate(y, token, user, family);
    AcceptPrivateKeepsPublic(y, token, user, family);
    FoundingMakesTwo(y, AcceptPrivate(y, token, user, family).value, family, y.private[token].sender, user);
  }

  lemma RespondKeepsPublic(y: Tables, id: Id, user: User, accept: bool, family: Id)
    requires PublicOk(y) && Respond(y, id, user, accept, family).Ok?
    ensures PublicOk(Respond(y, id, user, accept, family).value)
  {
    if accept {
      ClearedPublicIsOk(y, Respond(y, id, user, accept, family).value, y.public[id].sender, y.public[id].recipient);
    }
  }

  lemma RespondKeeps(y: Tables, id: Id, user: User, accept: bool, family: Id)
    requires TablesOk(y) && Respond(y, id, user, accept, family).Ok?
    ensures TablesOk(Respond(y, id, user, accept, family).value)
  {
    var z := Respond(y, id, user, accept, family).value;
    RespondKeepsPublic(y, id, user, accept, family);
    if accept {
      FoundingMakesTwo(y, z, family, y.public[id].sender, y.public[id].recipient);
    } else {
      SameFamilies(y, z);
    }
  }

  lemma SameFamilies(y: Tables, z: Tables)
    requires z.members == y.members && z.families == y.families && z.leaving == y.leaving
    ensures FamiliesOk(y) ==> FamiliesOk(z)
    ensures forall f :: MembersOf(z, f) == MembersOf(y, f)
  {
    forall f
      ensures MembersOf(z, f) == MembersOf(y, f)
    {
    }
  }

  lemma OnlyLeavingChanges(y: Tables, z: Tables)
    requires TablesOk(y) && z == y.(leaving := z.leaving)
    requires forall u :: u in z.leaving ==> u in y.members && y.members[u] == z.leaving[u].family
    ensures TablesOk(z) && forall f :: MembersOf(z, f) == MembersOf(y, f)
  {
    forall f
      ensures MembersOf(z, f) == MembersOf(y, f)
    {
    }
  }

  /** The commit of a leave removes exactly the leaver, and finds no pending invitation to cancel. */
  lemma LeavingShrinks(y: Tables, user: User)
    requires TablesOk(y) && user in y.leaving
    ensures TablesOk(FinishLeave(y, user).value)
    ensures forall f :: f in y.families ==> MembersOf(FinishLeave(y, user).value, f) == MembersOf(y, f) - {user}
    ensures FinishLeave(y, user).value.public == y.public
  {
    var z := FinishLeave(y, user).value;
    forall f | f in y.families
      ensures MembersOf(z, f) == MembersOf(y, f) - {user}
    {
    }
    assert z.public == y.public;
  }

  lemma CreateKeeps(y: Tables, id: Id, sender: User, recipient: User, expiresAt: int)
    requires TablesOk(y) && Create(y, id, sender, recipient, expiresAt).Ok?
    ensures TablesOk(Create(y, id, sender, recipient, expiresAt).value)
  {
    SameFamilies(y, Create(y, id, sender, recipient, expiresAt).value);
  }

  lemma CreatePrivateKeeps(y: Tables, token: Id, sender: User, email: Email, now: int, cooldown: nat, expiresAt: int)
    requires TablesOk(y) && CreatePrivate(y, token, sender, email, now, cooldown, expiresAt).Ok?
    ensures TablesOk(CreatePrivate(y, token, sender, email, now, cooldown, expiresAt).value)
  {
    SameFamilies(y, CreatePrivate(y, token, sender, email, now, cooldown, expiresAt).value);
  }

  predicate Closed(r: Private, r': Private) {
    r' == r || (r.status.PENDING? && (r' == r.(status := CANCELLED) || r' == r.(status := EXPIRED)))
  }

  /** Rows that only leave PENDING keep the invariant. */
  lemma ClosingKeeps(y: Tables, z: Tables)
    requires TablesOk(y) && z.members == y.members && z.families == y.families && z.leaving == y.leaving
    requires z.public.Keys == y.public.Keys && z.private.Keys == y.private.Keys
    requires forall k :: k in z.public ==> z.public[k] == y.public[k] || !z.public[k].status.PENDING?
    requires forall k :: k in z.private ==> Closed(y.private[k], z.private[k])
    ensures TablesOk(z)
  {
    SameFamilies(y, z);
    ClosedPublicIsOk(y, z);
    ClosedPrivateIsOk(y, z);
  }

  lemma ClosedPublicIsOk(y: Tables, z: Tables)
    requires PublicOk(y) && z.members == y.members && z.public.Keys == y.public.Keys
    requires forall k :: k in z.public ==> z.public[k] == y.public[k] || !z.public[k].status.PENDING?
    ensures PublicOk(z)
  {
  }

  lemma ClosedPrivateIsOk(y: Tables, z: Tables)
    requires PrivateOk(y) && z.private.Keys == y.private.Keys
    requires forall k :: k in z.private ==> Closed(y.private[k], z.private[k])
    ensures PrivateOk(z)
  {
    forall k | k in z.private
      ensures z.private[k].useCount == (if z.private[k].status.ACCEPTED? then 1 else 0)
      ensures z.private[k].acceptedBy.Some? <==> z.private[k].status.ACCEPTED?
      ensures z.private[k].status.PENDING? ==> z.private[k] == y.private[k]
    {
      assert Closed(y.private[k], z.private[k]);
    }
    forall j, k | j in z.private && k in z.private && SameAddress(z.private[j], z.private[k])
      ensures j == k
    {
      assert SameAddress(y.private[j], y.private[k]);
    }
  }

  lemma AttemptToLeaveKeeps(y: Tables, e: Event)
    requires TablesOk(y) && (e.BeginLeave? || e.AbortLeave?)
    ensures TablesOk(Step(y, e))
  {
    OnlyLeavingChanges(y, Step(y, e));
  }

  lemma ClosingPublicKeeps(y: Tables, e: Event)
    requires TablesOk(y) && (e.SetUser? || e.DoCancel? || e.ExpirePublic?)
    ensures TablesOk(Step(y, e))
  {
    var z := Step(y, e);
    assert z.private == y.private;
    ClosingKeeps(y, z);
  }

  lemma ClosingPrivateKeeps(y: Tables, e: Event)
    requires TablesOk(y) && (e.DoRevoke? || e.ExpirePrivate?)
    ensures TablesOk(Step(y, e))
  {
    var z := Step(y, e);
    assert z.public == y.public;
    ClosingKeeps(y, z);
  }

  lemma StepKeeps(y: Tables, e: Event)
    requires TablesOk(y)
    ensures TablesOk(Step(y, e))
  {
    if Attempt(y, e).Ok? {
      match e
      case DoCreate(id, a, b, expiresAt) => CreateKeeps(y, id, a, b, expiresAt);
      case DoCreatePrivate(t, a, email, now, cooldown, expiresAt) =>
        CreatePrivateKeeps(y, t, a, email, now, cooldown, expiresAt);
      case DoAcceptPrivate(t, u, f) => AcceptPrivateKeeps(y, t, u, f);
      case DoRespond(id, u, accept, f) => RespondKeeps(y, id, u, accept, f);
      case BeginLeave(_) => AttemptToLeaveKeeps(y, e);
      case CommitLeave(u) => LeavingShrinks(y, u);
      case AbortLeave(_) => AttemptToLeaveKeeps(y, e);
      case DoRevoke(_, _) => ClosingPrivateKeeps(y, e);
      case ExpirePrivate(_) => ClosingPrivateKeeps(y, e);
      case _ => ClosingPublicKeeps(y, e);
    }
  }

  /** The invariant holds in every run of every service. */
  lemma {:induction false} InvitationsAreSound(events: seq<Event>)
    ensures TablesOk(Run(events))
  {
    if events != [] {
      InvitationsAreSound(events[..|events| - 1]);
      StepKeeps(Run(events[..|events| - 1]), events[|events| - 1]);
    }
  }

  // ----- what never changes again -----

  ghost predicate SettledPublic(y: Tables, z: Tables) {
    forall k :: k in y.public ==>
      k in z.public && z.public[k] == y.public[k].(status := z.public[k].status) &&
      (y.public[k].status.PENDING? || z.public[k] == y.public[k])
  }

  ghost predicate SettledPrivate(y: Tables, z: Tables) {
    forall k :: k in y.private ==>
      k in z.private && z.private[k].sender == y.private[k].sender &&
        z.private[k].recipientEmail == y.private[k].recipientEmail &&
      (y.private[k].status.PENDING? || z.private[k] == y.private[k])
  }

  ghost predicate Shrunk(y: Tables, z: Tables) {
    forall f :: f in y.families ==> f in z.families && MembersOf(z, f) <= MembersOf(y, f)
  }

  /** Answered invitations keep their answer, and no family ever gains a member. */
  ghost predicate Settled(y: Tables, z: Tables) {
    SettledPublic(y, z) && SettledPrivate(y, z) && Shrunk(y, z)
  }

  lemma AcceptanceSettlesPublic(y: Tables, e: Event)
    requires e.DoAcceptPrivate? || e.DoRespond?
    ensures SettledPublic(y, Step(y, e))
  {
  }

  lemma StepSettlesPublic(y: Tables, e: Event)
    ensures SettledPublic(y, Step(y, e))
  {
    if e.DoAcceptPrivate? || e.DoRespond? {
      AcceptanceSettlesPublic(y, e);
    } else {
      OthersSettlePublic(y, e);
    }
  }

  lemma OthersSettlePublic(y: Tables, e: Event)
    requires !e.DoAcceptPrivate? && !e.DoRespond?
    ensures SettledPublic(y, Step(y, e))
  {
  }

  lemma StepSettlesPrivate(y: Tables, e: Event)
    ensures SettledPrivate(y, Step(y, e))
  {
  }

  lemma FoundingShrinksNone(y: Tables, z: Tables, family: Id, a: User, b: User)
    requires FamiliesOk(y) && family !in y.families && a != b && a !in y.members && b !in y.members
    requires z.members == y.members[a := family][b := family] && z.families == y.families[family := ACTIVE]
    requires z.leaving == y.leaving
    ensures Shrunk(y, z)
  {
    FoundingMakesTwo(y, z, family, a, b);
  }

  lemma SameFamiliesShrinkNone(y: Tables, z: Tables)
    requires z.members == y.members && z.families == y.families
    ensures Shrunk(y, z)
  {
    forall f
      ensures MembersOf(z, f) == MembersOf(y, f)
    {
    }
  }

  lemma AcceptPrivateShrinksNone(y: Tables, token: Id, user: User, family: Id)
    requires TablesOk(y) && AcceptPrivate(y, token, user, family).Ok?
    ensures Shrunk(y, AcceptPrivate(y, token, user, family).value)
  {
    FoundingShrinksNone(y, AcceptPrivate(y, token, user, family).value, family, y.private[token].sender, user);
  }

  lemma RespondShrinksNone(y: Tables, id: Id, user: User, accept: bool, family: Id)
    requires TablesOk(y) && Respond(y, id, user, accept, family).Ok?
    ensures Shrunk(y, Respond(y, id, user, accept, family).value)
  {
    var z := Respond(y, id, user, accept, family).value;
    if accept {
      FoundingShrinksNone(y, z, family, y.public[id].sender, y.public[id].recipient);
    } else {
      SameFamiliesShrinkNone(y, z);
    }
  }

  lemma LeaveShrinks(y: Tables, user: User)
    requires TablesOk(y) && user in y.leaving
    ensures Shrunk(y, FinishLeave(y, user).value)
  {
    LeavingShrinks(y, user);
  }

  lemma StepShrinks(y: Tables, e: Event)
    requires TablesOk(y)
    ensures Shrunk(y, Step(y, e))
  {
    if Attempt(y, e).Err? {
      SameFamiliesShrinkNone(y, y);
    } else {
      match e
      case DoAcceptPrivate(t, u, f) => AcceptPrivateShrinksNone(y, t, u, f);
      case DoRespond(id, u, accept, f) => RespondShrinksNone(y, id, u, accept, f);
      case CommitLeave(u) => LeaveShrinks(y, u);
      case _ => SameFamiliesShrinkNone(y, Step(y, e));
    }
  }

  lemma SettledComposes(x: Tables, y: Tables, z: Tables)
    requires Settled(x, y) && Settled(y, z)
    ensures Settled(x, z)
  {
  }

  /** From any point of any run on: an answered invitation never changes, and families only shrink. */
  lemma {:induction false} AnswersAreFinal(events: seq<Event>, n: nat)
    requires n <= |events|
    ensures Settled(Run(events[..n]), Run(events))
    decreases |events|
  {
    if n == |events| {
      assert events[..n] == events;
    } else {
      var m := |events| - 1;
      assert events[..m][..n] == events[..n];
      AnswersAreFinal(events[..m], n);
      InvitationsAreSound(events[..m]);
      StepSettlesPublic(Run(events[..m]), events[m]);
      StepSettlesPrivate(Run(events[..m]), events[m]);
      StepShrinks(Run(events[..m]), events[m]);
      SettledComposes(Run(events[..n]), Run(events[..m]), Run(events));
    }
  }

  // ----- emptied families -----

  /** The commit that removes the last member archives the family exactly when the leaver had counted
      nobody else; a leaver counts as members those who are leaving at the same time. */
  lemma EmptiedIsArchivedExactly(y: Tables, user: User)
    requires TablesOk(y) && user in y.leaving && MembersOf(y, y.leaving[user].family) == {user}
    ensures
      var k, z := y.leaving[user], FinishLeave(y, user).value;
      MembersOf(z, k.family) == {} &&
        (z.families[k.family].ARCHIVED? <==> k.others == 0 || y.families[k.family].ARCHIVED?)
  {
    LeavingShrinks(y, user);
  }

  /** At most one leave is under way in each family. */
  ghost predicate OneAtATime(y: Tables) {
    forall u, v :: u in y.leaving && v in y.leaving && y.leaving[u].family == y.leaving[v].family ==> u == v
  }

  ghost predicate NeverTogether(events: seq<Event>) {
    forall n :: 0 <= n <= |events| ==> OneAtATime(Run(events[..n]))
  }

  ghost predicate CountsAreFresh(y: Tables) {
    forall u :: u in y.leaving ==> y.leaving[u].others == |MembersOf(y, y.leaving[u].family) - {u}|
  }

  ghost predicate EmptyIsArchived(y: Tables) {
    forall f :: f in y.families && MembersOf(y, f) == {} ==> y.families[f].ARCHIVED?
  }

  /** The tables after the commit of a leave, as far as families are concerned. */
  ghost predicate LeftBy(y: Tables, z: Tables, user: User)
    requires user in y.leaving
  {
    && z.leaving == y.leaving - {user} && z.families.Keys == y.families.Keys
    && (forall f :: f in y.families ==> MembersOf(z, f) == MembersOf(y, f) - {user})
    && (forall f :: f in y.families ==>
          var k := y.leaving[user];
          z.families[f] == if f == k.family && k.others == 0 then ARCHIVED else y.families[f])
  }

  lemma FinishFamilies(y: Tables, user: User)
    requires user in y.leaving
    ensures
      var k, z := y.leaving[user], FinishLeave(y, user).value;
      z.leaving == y.leaving - {user} && z.families.Keys == y.families.Keys &&
      forall f :: f in y.families ==>
        z.families[f] == if f == k.family && k.others == 0 then ARCHIVED else y.families[f]
  {
  }

  lemma FinishIsLeftBy(y: Tables, z: Tables, user: User)
    requires TablesOk(y) && user in y.leaving && FinishLeave(y, user) == Ok(z)
    ensures LeftBy(y, z, user)
  {
    LeavingShrinks(y, user);
    FinishFamilies(y, user);
  }

  lemma CountStaysFresh(y: Tables, z: Tables, user: User, u: User)
    requires user in y.leaving && u in y.leaving && u != user && LeftBy(y, z, user) && y.leaving[u].family in y.families
    requires user in y.members && y.members[user] == y.leaving[user].family != y.leaving[u].family
    requires y.leaving[u].others == |MembersOf(y, y.leaving[u].family) - {u}|
    ensures z.leaving[u].others == |MembersOf(z, z.leaving[u].family) - {u}|
  {
    var f := y.leaving[u].family;
    assert user !in MembersOf(y, f);
    assert MembersOf(z, f) == MembersOf(y, f);
  }

  lemma CountsStayFresh(y: Tables, z: Tables, user: User)
    requires FamiliesOk(y) && OneAtATime(y) && CountsAreFresh(y) && user in y.leaving && LeftBy(y, z, user)
    ensures CountsAreFresh(z)
  {
    forall u | u in z.leaving
      ensures z.leaving[u].others == |MembersOf(z, z.leaving[u].family) - {u}|
    {
      CountStaysFresh(y, z, user, u);
    }
  }

  lemma EmptiesStayArchived(y: Tables, z: Tables, user: User)
    requires FamiliesOk(y) && CountsAreFresh(y) && EmptyIsArchived(y) && user in y.leaving && LeftBy(y, z, user)
    ensures EmptyIsArchived(z)
  {
    forall f | f in z.families && MembersOf(z, f) == {}
      ensures z.families[f].ARCHIVED?
    {
      if f == y.leaving[user].family {
        assert MembersOf(y, f) - {user} == {};
      } else {
        assert user !in MembersOf(y, f);
        assert MembersOf(y, f) == {};
      }
    }
  }

  lemma FoundingKeepsArchived(y: Tables, z: Tables, family: Id, a: User, b: User)
    requires FamiliesOk(y) && family !in y.families && a != b && a !in y.members && b !in y.members
    requires z.members == y.members[a := family][b := family] && z.families == y.families[family := ACTIVE]
    requires z.leaving == y.leaving && CountsAreFresh(y) && EmptyIsArchived(y)
    ensures CountsAreFresh(z) && EmptyIsArchived(z)
  {
    FoundingMakesTwo(y, z, family, a, b);
  }

  lemma SameMembersKeepArchived(y: Tables, z: Tables)
    requires z.members == y.members && z.families == y.families && CountsAreFresh(y) && EmptyIsArchived(y)
    requires forall u :: u in z.leaving ==>
               (u in y.leaving && z.leaving[u] == y.leaving[u]) ||
               z.leaving[u].others == |MembersOf(y, z.leaving[u].family) - {u}|
    ensures CountsAreFresh(z) && EmptyIsArchived(z)
  {
    forall f
      ensures MembersOf(z, f) == MembersOf(y, f)
    {
    }
  }

  lemma AcceptPrivateKeepsArchived(y: Tables, token: Id, user: User, family: Id)
    requires TablesOk(y) && CountsAreFresh(y) && EmptyIsArchived(y) && AcceptPrivate(y, token, user, family).Ok?
    ensures
      var z := AcceptPrivate(y, token, user, family).value;
      CountsAreFresh(z) && EmptyIsArchived(z)
  {
    FoundingKeepsArchived(y, AcceptPrivate(y, token, user, family).value, family, y.private[token].sender, user);
  }

  lemma RespondKeepsArchived(y: Tables, id: Id, user: User, accept: bool, family: Id)
    requires TablesOk(y) && CountsAreFresh(y) && EmptyIsArchived(y) && Respond(y, id, user, accept, family).Ok?
    ensures
      var z := Respond(y, id, user, accept, family).value;
      CountsAreFresh(z) && EmptyIsArchived(z)
  {
    var z := Respond(y, id, user, accept, family).value;
    if accept {
      FoundingKeepsArchived(y, z, family, y.public[id].sender, y.public[id].recipient);
    } else {
      SameMembersKeepArchived(y, z);
    }
  }

  lemma LeaveKeepsArchived(y: Tables, user: User)
    requires TablesOk(y) && OneAtATime(y) && CountsAreFresh(y) && EmptyIsArchived(y) && user in y.leaving
    ensures
      var z := FinishLeave(y, user).value;
      CountsAreFresh(z) && EmptyIsArchived(z)
  {
    var z := FinishLeave(y, user).value;
    FinishIsLeftBy(y, z, user);
    CountsStayFresh(y, z, user);
    EmptiesStayArchived(y, z, user);
  }

  /** Events that leave memberships and families alone. */
  predicate Aside(e: Event) {
    !e.DoAcceptPrivate? && !e.DoRespond? && !e.BeginLeave? && !e.CommitLeave? && !e.AbortLeave?
  }

  lemma AsideChangesNoFamily(y: Tables, e: Event)
    requires Aside(e)
    ensures Step(y, e).members == y.members && Step(y, e).families == y.families && Step(y, e).leaving == y.leaving
  {
  }

  lemma LeaveAttemptKeepsArchived(y: Tables, e: Event)
    requires CountsAreFresh(y) && EmptyIsArchived(y) && (e.BeginLeave? || e.AbortLeave?)
    ensures CountsAreFresh(Step(y, e)) && EmptyIsArchived(Step(y, e))
  {
    SameMembersKeepArchived(y, Step(y, e));
  }

  lemma StepKeepsArchived(y: Tables, e: Event)
    requires TablesOk(y) && OneAtATime(y) && CountsAreFresh(y) && EmptyIsArchived(y)
    ensures CountsAreFresh(Step(y, e)) && EmptyIsArchived(Step(y, e))
  {
    if Attempt(y, e).Ok? {
      match e
      case CommitLeave(u) => LeaveKeepsArchived(y, u);
      case DoAcceptPrivate(t, u, f) => AcceptPrivateKeepsArchived(y, t, u, f);
      case DoRespond(id, u, accept, f) => RespondKeepsArchived(y, id, u, accept, f);
      case BeginLeave(u) => LeaveAttemptKeepsArchived(y, e);
      case AbortLeave(u) => LeaveAttemptKeepsArchived(y, e);
      case _ =>
        AsideChangesNoFamily(y, e);
        SameMembersKeepArchived(y, Step(y, e));
    }
  }

  /** When no two leaves of one family overlap, every family without members is archived. */
  lemma {:induction false} EmptyFamiliesAreArchived(events: seq<Event>)
    requires NeverTogether(events)
    ensures CountsAreFresh(Run(events)) && EmptyIsArchived(Run(events))
  {
    if events != [] {
      var m := |events| - 1;
      forall n | 0 <= n <= m
        ensures OneAtATime(Run(events[..m][..n]))
      {
        assert events[..m][..n] == events[..n];
      }
      EmptyFamiliesAreArchived(events[..m]);
      InvitationsAreSound(events[..m]);
      assert OneAtATime(Run(events[..m]));
      StepKeepsArchived(Run(events[..m]), events[m]);
    }
  }

  /** A leave with nothing interleaved archives the family exactly when it empties it. */
  lemma LeavingAlone(y: Tables, z: Tables, user: User)
    requires y.leaving == map[] && Leave(y, user) == Ok(z)
    ensures TablesOk(y) ==>
              TablesOk(z) && user !in z.members && z.public == y.public && y.members[user] in z.families &&
              (z.families[y.members[user]].ARCHIVED? <==> MembersOf(z, y.members[user]) == {})
  {
    if TablesOk(y) {
      var family, m := y.members[user], StartLeave(y, user).value;
      OnlyLeavingChanges(y, m);
      LeavingShrinks(m, user);
      assert MembersOf(z, family) == MembersOf(y, family) - {user};
    }
  }

  // ----- who may change an invitation -----

  /** The only ways a public invitation leaves PENDING. */
  predicate MayBecome(y: Tables, e: Event, k: Id, r: Public, status: Status) {
    match status
    case PENDING => false
    case ACCEPTED => e.DoRespond? && e.accept && e.id == k && e.user == r.recipient
    case REJECTED => e.DoRespond? && !e.accept && e.id == k && e.user == r.recipient
    case EXPIRED => e.ExpirePublic? && r.expiresAt <= e.now
    case CANCELLED =>
      || (e.DoCancel? && e.id == k && e.user == r.sender)
      || (e.CommitLeave? && e.user == r.sender)
      || (e.DoRespond? && e.accept && e.id in y.public && r.Touches(y.public[e.id].sender, y.public[e.id].recipient))
      || (e.DoAcceptPrivate? && e.token in y.private && r.Touches(y.private[e.token].sender, e.user))
  }

  /** Only the recipient answers, only the sender withdraws, only time expires, and the rest is
      cancelled only because one of its parties entered a family. */
  lemma PublicAnswersAreAuthorised(y: Tables, e: Event, k: Id)
    requires k in y.public && Step(y, e).public[k] != y.public[k]
    ensures y.public[k].status.PENDING? && Step(y, e).public[k] == y.public[k].(status := Step(y, e).public[k].status)
    ensures MayBecome(y, e, k, y.public[k], Step(y, e).public[k].status)
  {
  }

  /** A private invitation is accepted only by the account its address names, who is recorded, and cancelled only
      by its sender, by a newer one to the same address, or because somebody it concerns accepted one. */
  lemma PrivateAnswersAreAuthorised(y: Tables, e: Event, k: Id)
    requires k in y.private && Step(y, e).private[k] != y.private[k]
    ensures y.private[k].status.PENDING? && !Step(y, e).private[k].status.PENDING?
    ensures Step(y, e).private[k].status.ACCEPTED? ==>
              e.DoAcceptPrivate? && e.token == k && Active(y, e.user) &&
                y.users[e.user].email == y.private[k].recipientEmail &&
              Step(y, e).private[k].acceptedBy == Some(e.user) && e.user != y.private[k].sender
    ensures Step(y, e).private[k].status.EXPIRED? ==> e.ExpirePrivate? && y.private[k].expiresAt <= e.now
    ensures Step(y, e).private[k].status.CANCELLED? ==> MayBeCancelled(y, e, k, y.private[k])
  {
  }

  /** The only ways a private invitation is cancelled. */
  predicate MayBeCancelled(y: Tables, e: Event, k: Id, r: Private) {
    || (e.DoRevoke? && e.token == k && e.user == r.sender)
    || (e.DoCreatePrivate? && e.sender == r.sender && e.email == r.recipientEmail)
    || (e.DoAcceptPrivate? && e.token != k && e.token in y.private && e.user in y.users &&
        (r.sender == y.private[e.token].sender || r.sender == e.user || r.recipientEmail == y.users[e.user].email ||
         (y.private[e.token].sender in y.users && r.recipientEmail == y.users[y.private[e.token].sender].email)))
  }

  // ----- expiry -----

  /** Event `i` is a sweep that finds the public invitation pending and past its expiry. */
  ghost predicate SweptAt(events: seq<Event>, k: Id, i: nat)
    requires i < |events|
  {
    var rows := Run(events[..i]).public;
    events[i].ExpirePublic? && k in rows && rows[k].status.PENDING? && rows[k].expiresAt <= events[i].now
  }

  ghost predicate PrivateSweptAt(events: seq<Event>, k: Id, i: nat)
    requires i < |events|
  {
    var rows := Run(events[..i]).private;
    events[i].ExpirePrivate? && k in rows && rows[k].status.PENDING? && rows[k].expiresAt <= events[i].now
  }

  lemma {:induction false} ExpiredWasSwept(events: seq<Event>, k: Id) returns (i: nat)
    requires k in Run(events).public && Run(events).public[k].status.EXPIRED?
    ensures i < |events| && SweptAt(events, k, i)
    decreases |events|
  {
    var m := |events| - 1;
    var before, e := events[..m], events[m];
    if k in Run(before).public && Run(before).public[k].status.EXPIRED? {
      i := ExpiredWasSwept(before, k);
      assert before[..i] == events[..i];
    } else {
      OnlySweepsExpire(Run(before), e, k);
      i := m;
    }
  }

  lemma OnlySweepsExpire(y: Tables, e: Event, k: Id)
    requires k in Step(y, e).public && Step(y, e).public[k].status.EXPIRED?
    requires k in y.public ==> !y.public[k].status.EXPIRED?
    ensures e.ExpirePublic? && k in y.public && y.public[k].status.PENDING? && y.public[k].expiresAt <= e.now
  {
    if k in y.public {
      PublicAnswersAreAuthorised(y, e, k);
    }
  }

  lemma {:induction false} PrivateExpiredWasSwept(events: seq<Event>, k: Id) returns (i: nat)
    requires k in Run(events).private && Run(events).private[k].status.EXPIRED?
    ensures i < |events| && PrivateSweptAt(events, k, i)
    decreases |events|
  {
    var m := |events| - 1;
    var before, e := events[..m], events[m];
    if k in Run(before).private && Run(before).private[k].status.EXPIRED? {
      i := PrivateExpiredWasSwept(before, k);
      assert before[..i] == events[..i];
    } else {
      OnlySweepsExpirePrivate(Run(before), e, k);
      i := m;
    }
  }

  lemma OnlySweepsExpirePrivate(y: Tables, e: Event, k: Id)
    requires k in Step(y, e).private && Step(y, e).private[k].status.EXPIRED?
    requires k in y.private ==> !y.private[k].status.EXPIRED?
    ensures e.ExpirePrivate? && k in y.private && y.private[k].status.PENDING? && y.private[k].expiresAt <= e.now
  {
    if k in y.private {
      PrivateAnswersAreAuthorised(y, e, k);
    }
  }

  /** An invitation of either kind is EXPIRED exactly when some sweep found it pending past its expiry;
      nothing else looks at the clock. */
  lemma ExpiredExactly(events: seq<Event>, k: Id)
    ensures k in Run(events).public ==>
              (Run(events).public[k].status.EXPIRED? <==> exists i :: 0 <= i < |events| && SweptAt(events, k, i))
    ensures k in Run(events).private ==>
              (Run(events).private[k].status.EXPIRED? <==>
               exists i :: 0 <= i < |events| && PrivateSweptAt(events, k, i))
  {
    if k in Run(events).public && Run(events).public[k].status.EXPIRED? {
      var i := ExpiredWasSwept(events, k);
    }
    if k in Run(events).private && Run(events).private[k].status.EXPIRED? {
      var i := PrivateExpiredWasSwept(events, k);
    }
    forall i | 0 <= i < |events|
      ensures SweptAt(events, k, i) ==> k in Run(events).public && Run(events).public[k].status.EXPIRED?
      ensures PrivateSweptAt(events, k, i) ==> k in Run(events).private && Run(events).private[k].status.EXPIRED?
    {
      var next := events[..i + 1];
      assert next[..i] == events[..i] && next[i] == events[i];
      AnswersAreFinal(events, i + 1);
    }
  }

  /** An invitation seen pending that has since been neither answered nor cancelled. */
  predicate Unanswered(y: Tables, k: Id) {
    k in y.public && (y.public[k].status.PENDING? || y.public[k].status.EXPIRED?)
  }

  /** When its recipient answers an otherwise untouched invitation, at whatever time, the answer goes
      through exactly when no sweep has run at or after its expiry. */
  lemma LateAnswerExactly(events: seq<Event>, n: nat, k: Id, accept: bool, family: Id)
    requires n <= |events| && k in Run(events[..n]).public && Run(events[..n]).public[k].status.PENDING?
    requires Unanswered(Run(events), k) && family !in Run(events).families
    ensures
      var r := Run(events[..n]).public[k];
      Respond(Run(events), k, r.recipient, accept, family).Ok? <==>
      forall i :: n <= i < |events| && events[i].ExpirePublic? ==> events[i].now < r.expiresAt
  {
    InvitationsAreSound(events);
    PublicRowStays(events, n, k);
    var r := Run(events[..n]).public[k];
    if Run(events).public[k].status.EXPIRED? {
      var i := ExpiredWasSwept(events, k);
      SweptLater(events, n, k, i);
    } else {
      forall i | n <= i < |events| && events[i].ExpirePublic?
        ensures events[i].now < r.expiresAt
      {
        PendingUntil(events, n, k, i);
        ExpiredExactly(events, k);
        assert !SweptAt(events, k, i);
      }
    }
  }

  lemma SweptLater(events: seq<Event>, n: nat, k: Id, i: nat)
    requires i < |events| && SweptAt(events, k, i) && n <= |events|
    requires k in Run(events[..n]).public && Run(events[..n]).public[k].status.PENDING?
    ensures n <= i && Run(events[..n]).public[k].expiresAt <= events[i].now
  {
    if i < n {
      var head := events[..n];
      assert head[..i] == events[..i] && head[i] == events[i];
      assert SweptAt(head, k, i);
      ExpiredExactly(head, k);
      assert false;
    } else {
      var head := events[..i];
      assert head[..n] == events[..n];
      PublicRowStays(head, n, k);
    }
  }

  /** Public rows never change but for their status, and keep it once they are not pending. */
  lemma PublicRowStays(events: seq<Event>, n: nat, k: Id)
    requires n <= |events| && k in Run(events[..n]).public
    ensures k in Run(events).public
    ensures
      var r, r' := Run(events[..n]).public[k], Run(events).public[k];
      r' == r.(status := r'.status) && (r.status.PENDING? || r' == r)
  {
    AnswersAreFinal(events, n);
  }

  /** A row still pending at the end was the same pending row all along. */
  lemma PendingUntil(events: seq<Event>, n: nat, k: Id, i: nat)
    requires n <= i <= |events| && k in Run(events[..n]).public && k in Run(events).public
    requires Run(events[..n]).public[k].status.PENDING? && Run(events).public[k].status.PENDING?
    ensures k in Run(events[..i]).public && Run(events[..i]).public[k] == Run(events[..n]).public[k]
  {
    var head := events[..i];
    assert head[..n] == events[..n];
    PublicRowStays(head, n, k);
    PublicRowStays(events, i, k);
  }

  // ----- who may invite and answer -----

  ghost predicate Free(y: Tables, u: User) {
    u in y.users && y.users[u].active == true && u !in y.members
  }

  /** Exactly who may invite whom, and what that writes: two different active users, neither in a family and
      neither already invited by the other. */
  lemma InvitesExactly(y: Tables, id: Id, sender: User, recipient: User, expiresAt: int)
    ensures
      var r := Create(y, id, sender, recipient, expiresAt);
      && (r.Ok? <==>
            sender != recipient && Free(y, sender) && Free(y, recipient) && id !in y.public &&
            forall k :: k in y.public && y.public[k].status == PENDING ==>
              {y.public[k].sender, y.public[k].recipient} != {sender, recipient})
      && (r.Ok? ==> r.value == y.(public := y.public[id := Public(sender, recipient, PENDING, expiresAt)]))
      && (r == Err(NotFound) <==>
            sender != recipient && !(sender in y.users && y.users[sender].active && recipient in y.users &&
                                     y.users[recipient].active))
      && (r.Err? ==> r.error == NotFound || r.error == Conflict)
  {
    forall k | k in y.public && y.public[k].status.PENDING? && sender != recipient
      ensures y.public[k].Between(sender, recipient) <==>
              {y.public[k].sender, y.public[k].recipient} == {sender, recipient}
    {
      SamePairSameUsers(y.public[k], sender, recipient);
    }
  }

  lemma SamePairSameUsers(r: Public, a: User, b: User)
    requires a != b
    ensures r.Between(a, b) <==> {r.sender, r.recipient} == {a, b}
  {
    if {r.sender, r.recipient} == {a, b} {
      assert a in {r.sender, r.recipient} && b in {r.sender, r.recipient};
    }
  }

  /** Exactly who may invite an address, and what that writes: an active user outside any family, not their own
      address, and not within the cooldown of a pending invitation to it, which the new one replaces. */
  lemma InvitesPrivatelyExactly(
    y: Tables, token: Id, sender: User, email: Email, now: int, cooldown: nat, expiresAt: int)
    ensures
      var r := CreatePrivate(y, token, sender, email, now, cooldown, expiresAt);
      && (r.Ok? <==>
            Free(y, sender) && y.users[sender].email != email && token !in y.private &&
            forall k :: k in y.private && Pends(y.private[k], sender, email) ==>
              y.private[k].createdAt + cooldown <= now)
      && (r == Err(TooManyRequests) <==>
            Free(y, sender) && y.users[sender].email != email &&
            exists k :: k in y.private && Pends(y.private[k], sender, email) && now < y.private[k].createdAt + cooldown)
      && (r == Err(NotFound) <==> !Active(y, sender))
      && (r.Err? ==> r.error in {NotFound, Conflict, TooManyRequests})
      && (r.Ok? ==>
            r.value == y.(private := r.value.private) && r.value.private.Keys == y.private.Keys + {token} &&
            r.value.private[token] == Private(sender, email, PENDING, 0, None, now, expiresAt) &&
            forall k :: k in y.private ==>
              r.value.private[k] ==
              if Pends(y.private[k], sender, email) then y.private[k].(status := CANCELLED) else y.private[k])
  {
  }

  predicate Pends(r: Private, sender: User, email: Email) {
    r.status == PENDING && r.sender == sender && r.recipientEmail == email
  }

  /** Exactly who may accept a private invitation, and which refusal others get. */
  lemma AcceptsPrivatelyExactly(y: Tables, token: Id, user: User, family: Id)
    requires TablesOk(y)
    ensures
      var r := AcceptPrivate(y, token, user, family);
      && (r.Ok? <==>
            token in y.private && y.private[token].status == PENDING && Free(y, y.private[token].sender) &&
            Free(y, user) && y.users[user].email == y.private[token].recipientEmail &&
            user != y.private[token].sender && family !in y.families)
      && (r == Err(Gone) <==> token in y.private && y.private[token].status == EXPIRED)
      && (r == Err(Forbidden) <==>
            token in y.private && y.private[token].status == PENDING && Active(y, y.private[token].sender) &&
            Active(y, user) && y.users[user].email != y.private[token].recipientEmail)
      && (r == Err(NotFound) <==>
            token !in y.private ||
            (y.private[token].status == PENDING && !(Active(y, y.private[token].sender) && Active(y, user))))
      && (r.Err? ==> r.error != TooManyRequests)
  {
  }

  /** Exactly who may answer a public invitation, and which refusal others get. */
  lemma RespondsExactly(y: Tables, id: Id, user: User, accept: bool, family: Id)
    requires TablesOk(y)
    ensures
      var r := Respond(y, id, user, accept, family);
      && (r.Ok? <==>
            id in y.public && y.public[id].recipient == user && y.public[id].status == PENDING &&
            (accept ==> family !in y.families))
      && (r == Err(NotFound) <==> id !in y.public)
      && (r == Err(Forbidden) <==> id in y.public && y.public[id].recipient != user)
      && (r == Err(Gone) <==> id in y.public && y.public[id].recipient == user && y.public[id].status == EXPIRED)
      && (r.Err? ==> r.error != TooManyRequests)
  {
  }

  /** Exactly who may withdraw an invitation, and which refusal others get. */
  lemma WithdrawsExactly(y: Tables, id: Id, user: User)
    ensures
      var r := Cancel(y, id, user);
      && (r.Ok? <==> id in y.public && y.public[id].sender == user && y.public[id].status == PENDING)
      && (r == Err(NotFound) <==> id !in y.public)
      && (r == Err(Forbidden) <==> id in y.public && y.public[id].sender != user)
      && (r.Err? ==> r.error in {NotFound, Forbidden, Conflict})
    ensures
      var r := RevokePrivate(y, id, user);
      && (r.Ok? <==> id in y.private && y.private[id].sender == user && y.private[id].status == PENDING)
      && (r == Err(NotFound) <==> id !in y.private)
      && (r == Err(Forbidden) <==> id in y.private && y.private[id].sender != user)
      && (r.Err? ==> r.error in {NotFound, Forbidden, Conflict})
  {
  }

  /** What an acceptance writes: the family and its two members, the invitation used, and every pending one that
      concerns them cancelled, by user and for private ones by address; nothing else. */
  lemma AcceptsPrivatelyWrites(y: Tables, token: Id, user: User, family: Id)
    requires AcceptPrivate(y, token, user, family).Ok?
    ensures
      var z, r := AcceptPrivate(y, token, user, family).value, y.private[token];
      var a, mine, theirs := r.sender, y.users[user].email, y.users[r.sender].email;
      && z.users == y.users && z.leaving == y.leaving
      && z.members == y.members[a := family][user := family] && z.families == y.families[family := ACTIVE]
      && z.public.Keys == y.public.Keys && z.private.Keys == y.private.Keys
      && z.private[token] == r.(status := ACCEPTED, acceptedBy := Some(user), useCount := 1)
      && (forall k :: k in y.private && k != token ==>
            var p := y.private[k];
            z.private[k] ==
            if p.status == PENDING && (p.sender in {a, user} || p.recipientEmail in {mine, theirs})
            then p.(status := CANCELLED) else p)
      && (forall k :: k in y.public ==>
            var p := y.public[k];
            z.public[k] ==
            if p.status == PENDING && (p.sender in {a, user} || p.recipient in {a, user})
            then p.(status := CANCELLED) else p)
  {
  }

  /** What an answer to a public invitation writes; private invitations are left alone. */
  lemma RespondsWrites(y: Tables, id: Id, user: User, accept: bool, family: Id)
    requires Respond(y, id, user, accept, family).Ok?
    ensures
      var z, r := Respond(y, id, user, accept, family).value, y.public[id];
      && z.users == y.users && z.leaving == y.leaving && z.private == y.private && z.public.Keys == y.public.Keys
      && z.public[id] == r.(status := if accept then ACCEPTED else REJECTED)
      && (!accept ==> z.members == y.members && z.families == y.families)
      && (accept ==>
            z.members == y.members[r.sender := family][user := family] && z.families == y.families[family := ACTIVE])
      && (forall k :: k in y.public && k != id ==>
            var p := y.public[k];
            z.public[k] ==
            if accept && p.status == PENDING && (p.sender in {r.sender, user} || p.recipient in {r.sender, user})
            then p.(status := CANCELLED) else p)
  {
  }

  /** A leave starts exactly for a member of an active family who is not leaving already, and counts the others. */
  lemma LeavesExactly(y: Tables, user: User)
    ensures
      var r := StartLeave(y, user);
      if user in y.members && y.members[user] in y.families && y.families[y.members[user]] == ACTIVE &&
         user !in y.leaving
      then
        var others := set u | u in y.members && y.members[u] == y.members[user] && u != user;
        r == Ok(y.(leaving := y.leaving[user := Leaving(y.members[user], |others|)]))
      else r == Err(Forbidden)
  {
    if user in y.members {
      assert MembersOf(y, y.members[user]) - {user} ==
             set u | u in y.members && y.members[u] == y.members[user] && u != user;
    }
  }

  // ----- withdrawn invitations -----

  lemma SettledOverRun(events: seq<Event>, more: seq<Event>)
    ensures Settled(Run(events), Run(events + more))
  {
    assert (events + more)[..|events|] == events;
    AnswersAreFinal(events + more, |events|);
  }

  /** Once a private invitation was revoked, nobody ever accepts it, whatever follows. */
  lemma RevokedIsNeverAccepted(events: seq<Event>, token: Id, owner: User, more: seq<Event>, user: User, family: Id)
    requires RevokePrivate(Run(events), token, owner).Ok?
    ensures
      var y := Run(events + [DoRevoke(token, owner)] + more);
      token in y.private && y.private[token].status.CANCELLED? && AcceptPrivate(y, token, user, family).Err?
  {
    RunSnoc(events, DoRevoke(token, owner));
    SettledOverRun(events + [DoRevoke(token, owner)], more);
  }

  /** Once a public invitation was withdrawn or rejected, nobody ever answers it. */
  lemma WithdrawnIsNeverAnswered(events: seq<Event>, e: Event, more: seq<Event>, user: User, accept: bool, family: Id)
    requires e.DoCancel? || (e.DoRespond? && !e.accept)
    requires Attempt(Run(events), e).Ok?
    ensures
      var y := Run(events + [e] + more);
      e.id in y.public && y.public[e.id].status == (if e.DoCancel? then CANCELLED else REJECTED) &&
      Respond(y, e.id, user, accept, family).Err?
  {
    RunSnoc(events, e);
    SettledOverRun(events + [e], more);
  }

  // ----- every family comes from one acceptance -----

  function AcceptedPublic(y: Tables): set<Id> {
    set k | k in y.public && y.public[k].status.ACCEPTED?
  }

  function AcceptedPrivate(y: Tables): set<Id> {
    set k | k in y.private && y.private[k].status.ACCEPTED?
  }

  ghost predicate OnePerAcceptance(y: Tables) {
    |y.families| == |AcceptedPublic(y)| + |AcceptedPrivate(y)|
  }

  /** One family more and one acceptance more. */
  ghost predicate OneMore(y: Tables, z: Tables, family: Id, accepted: Id) {
    && family !in y.families && z.families.Keys == y.families.Keys + {family}
    && (|| (accepted !in AcceptedPublic(y) && AcceptedPublic(z) == AcceptedPublic(y) + {accepted} &&
            AcceptedPrivate(z) == AcceptedPrivate(y))
        || (accepted !in AcceptedPrivate(y) && AcceptedPrivate(z) == AcceptedPrivate(y) + {accepted} &&
            AcceptedPublic(z) == AcceptedPublic(y)))
  }

  lemma AcceptPrivateAddsOne(y: Tables, token: Id, user: User, family: Id)
    requires AcceptPrivate(y, token, user, family).Ok?
    ensures OneMore(y, AcceptPrivate(y, token, user, family).value, family, token)
  {
  }

  lemma RespondAddsOne(y: Tables, id: Id, user: User, family: Id)
    requires Respond(y, id, user, true, family).Ok?
    ensures OneMore(y, Respond(y, id, user, true, family).value, family, id)
  {
    assert Respond(y, id, user, true, family).value.private == y.private;
  }

  lemma OneMoreKeepsCount(y: Tables, z: Tables, family: Id, accepted: Id)
    requires OnePerAcceptance(y) && OneMore(y, z, family, accepted)
    ensures OnePerAcceptance(z)
  {
    assert |z.families| == |z.families.Keys| && |y.families| == |y.families.Keys|;
  }

  lemma SameAcceptances(y: Tables, z: Tables)
    requires OnePerAcceptance(y) && z.families.Keys == y.families.Keys
    requires AcceptedPublic(z) == AcceptedPublic(y) && AcceptedPrivate(z) == AcceptedPrivate(y)
    ensures OnePerAcceptance(z)
  {
    assert |z.families| == |z.families.Keys| && |y.families| == |y.families.Keys|;
  }

  ghost predicate Accepts(e: Event) {
    e.DoAcceptPrivate? || (e.DoRespond? && e.accept)
  }

  lemma OthersAcceptNone(y: Tables, e: Event)
    requires !Accepts(e)
    ensures AcceptedPublic(Step(y, e)) == AcceptedPublic(y)
    ensures Step(y, e).families.Keys == y.families.Keys
  {
  }

  lemma OthersAcceptNonePrivate(y: Tables, e: Event)
    requires !Accepts(e)
    ensures AcceptedPrivate(Step(y, e)) == AcceptedPrivate(y)
  {
  }

  lemma AcceptanceAddsOne(y: Tables, e: Event)
    requires Accepts(e) && Attempt(y, e).Ok?
    ensures OneMore(y, Step(y, e), e.family, if e.DoRespond? then e.id else e.token)
  {
    if e.DoRespond? {
      RespondAddsOne(y, e.id, e.user, e.family);
    } else {
      AcceptPrivateAddsOne(y, e.token, e.user, e.family);
    }
  }

  lemma StepCounts(y: Tables, e: Event)
    requires OnePerAcceptance(y)
    ensures OnePerAcceptance(Step(y, e))
  {
    var z := Step(y, e);
    if z == y {
    } else if Accepts(e) {
      AcceptanceAddsOne(y, e);
      OneMoreKeepsCount(y, z, e.family, if e.DoRespond? then e.id else e.token);
    } else {
      OthersAcceptNone(y, e);
      OthersAcceptNonePrivate(y, e);
      SameAcceptances(y, z);
    }
  }

  /** In every run there are as many families as accepted invitations, public and private together. */
  lemma {:induction false} FamiliesAreAcceptances(events: seq<Event>)
    ensures OnePerAcceptance(Run(events))
  {
    if events == [] {
      assert AcceptedPublic(Run(events)) == {} && AcceptedPrivate(Run(events)) == {};
    } else {
      var m := |events| - 1;
      FamiliesAreAcceptances(events[..m]);
      StepCounts(Run(events[..m]), events[m]);
    }
  }

  /** A family that appears in a step has exactly two members, both of whom had none before. */
  lemma FamiliesStartWithTwo(events: seq<Event>, e: Event, family: Id)
    requires family !in Run(events).families && family in Step(Run(events), e).families
    ensures
      var y, z := Run(events), Step(Run(events), e);
      |MembersOf(z, family)| == 2 && forall u :: u in MembersOf(z, family) ==> u !in y.members
  {
    InvitationsAreSound(events);
    NewFamilyHasTwo(Run(events), e, family);
  }

  lemma OthersFoundNone(y: Tables, e: Event)
    requires !Accepts(e)
    ensures Step(y, e).families.Keys == y.families.Keys
  {
  }

  lemma AcceptPrivateFoundsTwo(y: Tables, token: Id, user: User, family: Id)
    requires TablesOk(y) && AcceptPrivate(y, token, user, family).Ok?
    ensures
      var z := AcceptPrivate(y, token, user, family).value;
      z.families.Keys == y.families.Keys + {family} &&
      |MembersOf(z, family)| == 2 && forall u :: u in MembersOf(z, family) ==> u !in y.members
  {
    FoundingMakesTwo(y, AcceptPrivate(y, token, user, family).value, family, y.private[token].sender, user);
  }

  lemma RespondFoundsTwo(y: Tables, id: Id, user: User, family: Id)
    requires TablesOk(y) && Respond(y, id, user, true, family).Ok?
    ensures
      var z := Respond(y, id, user, true, family).value;
      z.families.Keys == y.families.Keys + {family} &&
      |MembersOf(z, family)| == 2 && forall u :: u in MembersOf(z, family) ==> u !in y.members
  {
    FoundingMakesTwo(y, Respond(y, id, user, true, family).value, family, y.public[id].sender, y.public[id].recipient);
  }

  lemma NewFamilyHasTwo(y: Tables, e: Event, family: Id)
    requires TablesOk(y) && family !in y.families && family in Step(y, e).families
    ensures |MembersOf(Step(y, e), family)| == 2 && forall u :: u in MembersOf(Step(y, e), family) ==> u !in y.members
  {
    if !Accepts(e) {
      OthersFoundNone(y, e);
    } else if e.DoRespond? {
      RespondFoundsTwo(y, e.id, e.user, e.family);
    } else {
      AcceptPrivateFoundsTwo(y, e.token, e.user, e.family);
    }
  }

  // ----- private invitations a public acceptance leaves behind -----

  /** No pending private invitation comes from someone already in a family. */
  ghost predicate PrivateClear(y: Tables) {
    forall k :: k in y.private && y.private[k].status.PENDING? ==> y.private[k].sender !in y.members
  }

  /** Accepting a private invitation cancels what its two parties sent. */
  lemma AcceptPrivateClears(y: Tables, token: Id, user: User, family: Id)
    requires PrivateClear(y) && AcceptPrivate(y, token, user, family).Ok?
    ensures PrivateClear(AcceptPrivate(y, token, user, family).value)
  {
  }

  /** Accepting a public one does not: the private invitations stay clear exactly when neither party
      had one pending. */
  lemma RespondLeavesPrivate(y: Tables, id: Id, user: User, family: Id)
    requires PrivateClear(y) && Respond(y, id, user, true, family).Ok?
    ensures PrivateClear(Respond(y, id, user, true, family).value) <==>
            forall k :: k in y.private && y.private[k].status.PENDING? ==>
              y.private[k].sender != y.public[id].sender && y.private[k].sender != y.public[id].recipient
  {
    var z := Respond(y, id, user, true, family).value;
    forall k | k in y.private && y.private[k].status.PENDING?
      ensures y.private[k].sender in z.members <==>
              y.private[k].sender == y.public[id].sender || y.private[k].sender == y.public[id].recipient
    {
    }
  }

  lemma RunSnoc(events: seq<Event>, e: Event)
    ensures Run(events + [e]) == Step(Run(events), e)
  {
    assert (events + [e])[..|events|] == events;
  }

  const LATER: int := 3_600_000
  const PEOPLE: seq<Event> := [SetUser("ann", Profile("ann@x", true))] + [SetUser("bob", Profile("bob@x", true))] +
                              [SetUser("cid", Profile("cid@x", true))]
  const INVITED: seq<Event> := PEOPLE + [DoCreatePrivate("token", "ann", "cid@x", 0, 0, LATER)] +
                               [DoCreate("p", "ann", "bob", LATER)]
  const STALE: seq<Event> := INVITED + [DoRespond("p", "bob", true, "first")]

  lemma EveryoneIsKnown()
    ensures
      var y := Run(PEOPLE);
      y.users == map["ann" := Profile("ann@x", true), "bob" := Profile("bob@x", true),
        "cid" := Profile("cid@x", true)] &&
      y.members == map[] && y.families == map[] && y.public == map[] && y.private == map[] && y.leaving == map[]
  {
    var e1 := [SetUser("ann", Profile("ann@x", true))];
    assert e1 == [] + e1;
    RunSnoc([], e1[0]);
    RunSnoc(e1, SetUser("bob", Profile("bob@x", true)));
    RunSnoc(e1 + [SetUser("bob", Profile("bob@x", true))], SetUser("cid", Profile("cid@x", true)));
  }

  lemma EveryoneIsInvited()
    ensures
      var y := Run(INVITED);
      y.members == map[] && y.families == map[] && Active(y, "ann") && Active(y, "cid") &&
        y.users["cid"].email == "cid@x" &&
      y.leaving == map[] && y.users["ann"].email == "ann@x" &&
        y.public == map["p" := Public("ann", "bob", PENDING, LATER)] &&
      y.private == map["token" := Private("ann", "cid@x", PENDING, 0, None, 0, LATER)]
  {
    EveryoneIsKnown();
    RunSnoc(PEOPLE, DoCreatePrivate("token", "ann", "cid@x", 0, 0, LATER));
    RunSnoc(PEOPLE + [DoCreatePrivate("token", "ann", "cid@x", 0, 0, LATER)], DoCreate("p", "ann", "bob", LATER));
  }

  lemma PublicIsAccepted()
    ensures
      var y := Run(STALE);
      y.members == map["ann" := "first", "bob" := "first"] && y.families == map["first" := ACTIVE] &&
      y.users == Run(INVITED).users && y.private == Run(INVITED).private && y.leaving == map[]
  {
    EveryoneIsInvited();
    RunSnoc(INVITED, DoRespond("p", "bob", true, "first"));
  }

  lemma AnnIsLeaving()
    ensures Run(STALE + [BeginLeave("ann")]) == Run(STALE).(leaving := map["ann" := Leaving("first", 1)])
  {
    PublicIsAccepted();
    var y := Run(STALE);
    assert MembersOf(y, "first") == {"ann", "bob"};
    assert MembersOf(y, "first") - {"ann"} == {"bob"};
    RunSnoc(STALE, BeginLeave("ann"));
    assert StartLeave(y, "ann") == Ok(y.(leaving := map["ann" := Leaving("first", 1)]));
  }

  lemma AnnIsFree()
    ensures
      var y := Run(STALE + [BeginLeave("ann")] + [CommitLeave("ann")]);
      y.members == map["bob" := "first"] && y.families == map["first" := ACTIVE] &&
      y.users == Run(INVITED).users && y.private == Run(INVITED).private
  {
    PublicIsAccepted();
    AnnIsLeaving();
    RunSnoc(STALE + [BeginLeave("ann")], CommitLeave("ann"));
    assert map["ann" := "first", "bob" := "first"] - {"ann"} == map["bob" := "first"];
  }

  /** So a private invitation can outlive its sender's public acceptance, unusable while the sender is
      in that family, and be accepted after the sender has left it. */
  lemma StaleInvitationComesBack()
    ensures
      var y := Run(STALE);
      "token" in y.private && y.private["token"].status.PENDING? && "ann" in y.members && !PrivateClear(y)
    ensures AcceptPrivate(Run(STALE), "token", "cid", "second") == Err(Conflict)
    ensures AcceptPrivate(Run(STALE + [BeginLeave("ann")] + [CommitLeave("ann")]), "token", "cid", "second").Ok?
  {
    EveryoneIsInvited();
    PublicIsAccepted();
    AnnIsFree();
  }

  /** A sweep just before the expiry lets an answer through that comes long after it; a sweep at the expiry
      does not. */
  lemma LateAnswerIsAccepted()
    ensures Respond(Run(INVITED + [ExpirePublic(LATER - 1)]), "p", "bob", true, "first").Ok?
    ensures Respond(Run(INVITED + [ExpirePublic(LATER)]), "p", "bob", true, "first") == Err(Gone)
  {
    EveryoneIsInvited();
    RunSnoc(INVITED, ExpirePublic(LATER - 1));
    RunSnoc(INVITED, ExpirePublic(LATER));
  }

  const BOTH_LEAVING: seq<Event> := STALE + [BeginLeave("ann")] + [BeginLeave("bob")]

  lemma BothCountOneOther()
    ensures
      var y := Run(BOTH_LEAVING);
      y.members == map["ann" := "first", "bob" := "first"] && y.families == map["first" := ACTIVE] &&
      y.leaving == map["ann" := Leaving("first", 1), "bob" := Leaving("first", 1)]
  {
    PublicIsAccepted();
    AnnIsLeaving();
    var z := Run(STALE + [BeginLeave("ann")]);
    assert MembersOf(z, "first") == {"ann", "bob"};
    assert MembersOf(z, "first") - {"bob"} == {"ann"};
    RunSnoc(STALE + [BeginLeave("ann")], BeginLeave("bob"));
  }

  /** Two members who leave at once each count the other, and their family stays active with nobody in it. */
  lemma LeavingTogetherStaysActive()
    ensures
      var y := Run(BOTH_LEAVING + [CommitLeave("ann")] + [CommitLeave("bob")]);
      y.members == map[] && y.families == map["first" := ACTIVE]
  {
    BothCountOneOther();
    RunSnoc(BOTH_LEAVING, CommitLeave("ann"));
    var y := Run(BOTH_LEAVING + [CommitLeave("ann")]);
    assert y.members == map["bob" := "first"] && y.leaving == map["bob" := Leaving("first", 1)];
    RunSnoc(BOTH_LEAVING + [CommitLeave("ann")], CommitLeave("bob"));
  }

  // ----- the tables, updated in place -----

  class FamilyDatabase {
    var users: map<User, Profile>
    var members: map<User, Id>
    var families: map<Id, FamilyStatus>
    var public: map<Id, Public>
    var private: map<Id, Private>

    /** The invariant every service keeps. */
    ghost predicate Valid()
      reads this
    {
      TablesOk(Contents())
    }

    ghost function Contents(): Tables
      reads this
    {
      Tables(users, members, families, public, private, map[])
    }

    constructor ()
      ensures Contents() == Run([])
    {
      users, members, families, public, private := map[], map[], map[], map[], map[];
    }

    method CreateInvitation(id: Id, sender: User, recipient: User, expiresAt: int) returns (refusal: Option<Refusal>)
      modifies `public
      ensures
        var r := Create(old(Contents()), id, sender, recipient, expiresAt);
        if r.Ok? then refusal == None && Contents() == r.value
        else refusal == Some(r.error) && Contents() == old(Contents())
      ensures old(Valid()) ==> Valid()
      ensures refusal.None? ==> Active(Contents(), sender) && Active(Contents(), recipient)
      ensures refusal.None? ==> sender !in members && recipient !in members
    {
      if sender == recipient {
        return Some(Conflict);
      }
      if !(sender in users && users[sender].active) || !(recipient in users && users[recipient].active) {
        return Some(NotFound);
      }
      if sender in members || recipient in members {
        return Some(Conflict);
      }
      if id in public || HasPending(public, sender, recipient) {
        return Some(Conflict);
      }
      public := public[id := Public(sender, recipient, PENDING, expiresAt)];
      refusal := None;
      if old(Valid()) {
        CreateKeeps(old(Contents()), id, sender, recipient, expiresAt);
      }
    }

    method AcceptPrivateInvitation(token: Id, user: User, family: Id) returns (refusal: Option<Refusal>)
      modifies this
      ensures
        var r := AcceptPrivate(old(Contents()), token, user, family);
        if r.Ok? then refusal == None && Contents() == r.value
        else refusal == Some(r.error) && Contents() == old(Contents())
      ensures old(Valid()) ==> Valid()
      ensures refusal.None? && old(Valid()) ==> MembersOf(Contents(), family) == {old(private)[token].sender, user}
    {
      if token !in private {
        return Some(NotFound);
      }
      var current := private[token];
      if current.status.EXPIRED? {
        return Some(Gone);
      }
      if !current.status.PENDING? || current.useCount > 0 {
        return Some(Conflict);
      }
      if !(current.sender in users && users[current.sender].active) || !(user in users && users[user].active) {
        return Some(NotFound);
      }
      if users[user].email != current.recipientEmail {
        return Some(Forbidden);
      }
      if current.sender == user {
        return Some(Conflict);
      }
      if current.sender in members || user in members || family in families {
        return Some(Conflict);
      }
      families := families[family := ACTIVE];
      members := members[current.sender := family];
      members := members[user := family];
      public := CancelPublic(public, current.sender, user);
      private := CancelPrivate(private, {current.sender, user}, {users[current.sender].email, users[user].email});
      private := private[token := current.(
        status := ACCEPTED, acceptedBy := Some(user), useCount := current.useCount + 1)];
      refusal := None;
      if old(Valid()) {
        AcceptPrivateKeeps(old(Contents()), token, user, family);
        FoundingMakesTwo(old(Contents()), Contents(), family, current.sender, user);
      }
    }

    method RespondToInvitation(id: Id, user: User, accept: bool, family: Id) returns (refusal: Option<Refusal>)
      modifies `public, `members, `families
      ensures
        var r := Respond(old(Contents()), id, user, accept, family);
        if r.Ok? then refusal == None && Contents() == r.value
        else refusal == Some(r.error) && Contents() == old(Contents())
      ensures old(Valid()) ==> Valid()
      ensures refusal.None? && accept && old(Valid()) ==>
              MembersOf(Contents(), family) == {old(public)[id].sender, user}
    {
      if id !in public {
        return Some(NotFound);
      }
      var current := public[id];
      if current.recipient != user {
        return Some(Forbidden);
      }
      if current.status.EXPIRED? {
        return Some(Gone);
      }
      if !current.status.PENDING? {
        return Some(Conflict);
      }
      if accept {
        if current.sender in members || current.recipient in members || family in families {
          return Some(Conflict);
        }
        families := families[family := ACTIVE];
        members := members[current.sender := family];
        members := members[current.recipient := family];
        public := CancelPublic(public, current.sender, current.recipient);
      }
      public := public[id := current.(status := if accept then ACCEPTED else REJECTED)];
      refusal := None;
      if old(Valid()) {
        RespondKeeps(old(Contents()), id, user, accept, family);
        if accept {
          FoundingMakesTwo(old(Contents()), Contents(), family, current.sender, current.recipient);
        }
      }
    }

    method LeaveFamily(user: User) returns (refusal: Option<Refusal>)
      modifies `public, `members, `families
      ensures
        var r := Leave(old(Contents()), user);
        if r.Ok? then refusal == None && Contents() == r.value
        else refusal == Some(r.error) && Contents() == old(Contents())
      ensures old(Valid()) ==> Valid()
      ensures refusal.None? && old(Valid()) ==>
                user !in members && public == old(public) &&
                (families[old(members)[user]].ARCHIVED? <==> MembersOf(Contents(), old(members)[user]) == {})
    {
      if user !in members || members[user] !in families || !families[members[user]].ACTIVE? {
        return Some(Forbidden);
      }
      var family := members[user];
      members := members - {user};
      var remaining := set u | u in members && members[u] == family;
      assert remaining == MembersOf(old(Contents()), family) - {user};
      if |remaining| == 0 {
        families := families[family := ARCHIVED];
      }
      public := CancelSentPublic(public, user);
      assert map[user := Leaving(family, |remaining|)] - {user} == map[];
      LeavingAlone(old(Contents()), Contents(), user);
      refusal := None;
    }
  }
}
