/** Workspace memberships: role changes, removals, departures and ownership transfers, one at a time. */
module Members {
  datatype Role = Owner | Admin | Editor | Viewer

  /** ROLE_HIERARCHY. */
  function Rank(r: Role): nat {
    match r
    case Owner => 4
    case Admin => 3
    case Editor => 2
    case Viewer => 1
  }

  predicate CanModifyMember(actor: Role, target: Role) {
    Rank(actor) > Rank(target)
  }

  datatype Key = Key(workspaceId: string, userId: string)
  datatype Membership = Membership(id: string, role: Role)
  type Table = map<Key, Membership>

  // The membership that the guard attached to the request; an API key acts under its own user id.
  datatype Actor = Actor(userId: string, role: Role)

  datatype Outcome = Done | UserNotFound | NotFound | BadRequest | Forbidden

  datatype Operation =
    | UpdateRole(workspaceId: string, userId: string, role: Role, actor: Actor)
    | Remove(workspaceId: string, userId: string, actor: Actor)
    | Leave(workspaceId: string, userId: string)
    | TransferOwnership(workspaceId: string, newOwnerId: string, actorId: string)

  function Owners(t: Table, workspaceId: string): set<Key> {
    set k | k in t && k.workspaceId == workspaceId && t[k].role == Owner
  }

  /** DELETE WHERE id = …. */
  function Delete(t: Table, id: string): Table {
    map k | k in t && t[k].id != id :: t[k]
  }

  function WithRole(t: Table, k: Key, role: Role): Table
    requires k in t
  {
    t[k := t[k].(role := role)]
  }

  /** The outcome of a role change and, when it is accepted, whether the response finds the user. */
  function UpdateRoleVerdict(t: Table, k: Key, role: Role, actor: Actor): Outcome {
    if k !in t then NotFound
    else if actor.userId == k.userId then BadRequest
    else if !CanModifyMember(actor.role, t[k].role) then Forbidden
    else if role == Owner && actor.role != Owner then Forbidden
    else if Rank(role) > Rank(actor.role) || (role != Owner && Rank(role) >= Rank(actor.role)) then Forbidden
    else Done
  }

  function RemoveVerdict(t: Table, k: Key, actor: Actor): Outcome {
    if k !in t then NotFound
    else if actor.userId == k.userId then BadRequest
    else if t[k].role == Owner && actor.role != Owner then Forbidden
    else if t[k].role == Owner && |Owners(t, k.workspaceId)| <= 1 then Forbidden
    else if t[k].role != Owner && !CanModifyMember(actor.role, t[k].role) then Forbidden
    else Done
  }

  function LeaveVerdict(t: Table, k: Key): Outcome {
    if k !in t then NotFound
    else if t[k].role == Owner && |Owners(t, k.workspaceId)| <= 1 then BadRequest
    else Done
  }

  function TransferVerdict(t: Table, from: Key, to: Key): Outcome {
    if from !in t || t[from].role != Owner then Forbidden
    else if from.userId == to.userId then BadRequest
    else if to !in t then NotFound
    else Done
  }

  /** The memberships after an operation: a refused one changes nothing. */
  function Step(t: Table, op: Operation): Table {
    match op
    case UpdateRole(w, u, role, actor) =>
      if UpdateRoleVerdict(t, Key(w, u), role, actor) == Done then WithRole(t, Key(w, u), role) else t
    case Remove(w, u, actor) =>
      if RemoveVerdict(t, Key(w, u), actor) == Done then Delete(t, t[Key(w, u)].id) else t
    case Leave(w, u) =>
      if LeaveVerdict(t, Key(w, u)) == Done then Delete(t, t[Key(w, u)].id) else t
    case TransferOwnership(w, to, from) =>
      if TransferVerdict(t, Key(w, from), Key(w, to)) == Done
      then WithRole(WithRole(t, Key(w, from), Admin), Key(w, to), Owner) else t
  }

  function After(t: Table, ops: seq<Operation>): Table
    decreases |ops|
  {
    if ops == [] then t else After(Step(t, ops[0]), ops[1..])
  }

  ghost predicate UniqueIds(t: Table) {
    forall k, l | k in t && l in t && t[k].id == t[l].id :: k == l
  }

  // ----- The last owner -----

  lemma DeleteOne(t: Table, k: Key)
    requires UniqueIds(t) && k in t
    ensures UniqueIds(Delete(t, t[k].id))
    ensures Delete(t, t[k].id) == t - {k}
  {
  }

  lemma OwnersWithout(t: Table, k: Key, w: string)
    requires k in t && Owners(t, w) != {}
    requires t[k].role == Owner && k.workspaceId == w ==> |Owners(t, w)| > 1
    ensures Owners(t - {k}, w) != {}
  {
    assert Owners(t - {k}, w) == Owners(t, w) - {k};
    if k in Owners(t, w) {
      assert |Owners(t, w) - {k}| == |Owners(t, w)| - 1;
    }
  }

  lemma WithRoleKeepsIds(t: Table, k: Key, role: Role)
    requires UniqueIds(t) && k in t
    ensures UniqueIds(WithRole(t, k, role))
  {
    var after := WithRole(t, k, role);
    assert forall l <- after :: l in t && after[l].id == t[l].id;
  }

  /** An owner outranks everyone, so a role change never demotes one. */
  lemma UpdateRoleKeepsOwners(t: Table, k: Key, role: Role, actor: Actor, w: string)
    requires UpdateRoleVerdict(t, k, role, actor) == Done
    ensures Owners(t, w) <= Owners(WithRole(t, k, role), w)
  {
  }

  lemma TransferKeepsAnOwner(t: Table, from: Key, to: Key, w: string)
    requires TransferVerdict(t, from, to) == Done && Owners(t, w) != {} && from.workspaceId == to.workspaceId
    ensures Owners(WithRole(WithRole(t, from, Admin), to, Owner), w) != {}
  {
    var o :| o in Owners(t, w);
    assert (if to.workspaceId == w then to else o) in Owners(WithRole(WithRole(t, from, Admin), to, Owner), w);
  }

  lemma StepKeepsAnOwner(t: Table, op: Operation, w: string)
    requires UniqueIds(t) && Owners(t, w) != {}
    ensures UniqueIds(Step(t, op)) && Owners(Step(t, op), w) != {}
  {
    if Step(t, op) != t {
      match op
      case UpdateRole(v, u, role, actor) =>
        WithRoleKeepsIds(t, Key(v, u), role);
        UpdateRoleKeepsOwners(t, Key(v, u), role, actor, w);
      case TransferOwnership(v, to, from) =>
        WithRoleKeepsIds(t, Key(v, from), Admin);
        WithRoleKeepsIds(WithRole(t, Key(v, from), Admin), Key(v, to), Owner);
        TransferKeepsAnOwner(t, Key(v, from), Key(v, to), w);
      case _ =>
        DeleteOne(t, Key(op.workspaceId, op.userId));
        OwnersWithout(t, Key(op.workspaceId, op.userId), w);
    }
  }

  /** A workspace that has an owner never loses its last one, whoever does what in whatever order. */
  lemma {:induction false} EveryRunKeepsAnOwner(t: Table, ops: seq<Operation>, w: string)
    requires UniqueIds(t) && Owners(t, w) != {}
    ensures UniqueIds(After(t, ops)) && Owners(After(t, ops), w) != {}
    decreases |ops|
  {
    if ops != [] {
      StepKeepsAnOwner(t, ops[0], w);
      EveryRunKeepsAnOwner(Step(t, ops[0]), ops[1..], w);
    }
  }

  // ----- Privileges -----

  /** The rank under which an operation acts: the request's role, or the caller's own membership. */
  function ActingRank(t: Table, op: Operation): nat {
    match op
    case UpdateRole(_, _, _, actor) => Rank(actor.role)
    case Remove(_, _, actor) => Rank(actor.role)
    case Leave(w, u) => if Key(w, u) in t then Rank(t[Key(w, u)].role) else 0
    case TransferOwnership(w, _, from) => if Key(w, from) in t then Rank(t[Key(w, from)].role) else 0
  }

  ghost predicate ActsBelow(t: Table, ops: seq<Operation>, limit: nat)
    decreases |ops|
  {
    ops == [] || (ActingRank(t, ops[0]) <= limit && ActsBelow(Step(t, ops[0]), ops[1..], limit))
  }

  /** Nobody reaches `limit` who was not there with the same role, and nobody above it is touched. */
  ghost predicate NoneRaised(before: Table, after: Table, limit: nat) {
    && (forall k <- after | Rank(after[k].role) >= limit :: k in before && before[k] == after[k])
    && (forall k <- before | Rank(before[k].role) > limit :: k in after && after[k] == before[k])
  }

  lemma StepRaisesNone(t: Table, op: Operation, limit: nat)
    requires UniqueIds(t) && limit < Rank(Owner) && ActingRank(t, op) <= limit
    ensures UniqueIds(Step(t, op)) && NoneRaised(t, Step(t, op), limit)
  {
    match op
    case UpdateRole(w, u, role, actor) =>
      if UpdateRoleVerdict(t, Key(w, u), role, actor) == Done {
        ChangedRoleRaisesNone(t, Key(w, u), role, limit);
      }
    case TransferOwnership(_, _, _) =>
      assert Step(t, op) == t;
    case _ =>
      if Step(t, op) != t {
        DeletionRaisesNone(t, Key(op.workspaceId, op.userId), limit);
      }
  }

  lemma ChangedRoleRaisesNone(t: Table, k: Key, role: Role, limit: nat)
    requires UniqueIds(t) && k in t && Rank(t[k].role) <= limit && Rank(role) < limit
    ensures UniqueIds(WithRole(t, k, role)) && NoneRaised(t, WithRole(t, k, role), limit)
  {
    WithRoleKeepsIds(t, k, role);
  }

  lemma DeletionRaisesNone(t: Table, k: Key, limit: nat)
    requires UniqueIds(t) && k in t && Rank(t[k].role) <= limit
    ensures UniqueIds(Delete(t, t[k].id)) && NoneRaised(t, Delete(t, t[k].id), limit)
  {
    DeleteOne(t, k);
  }

  /**
   As long as everyone acts with a rank of at most `limit`, below owner, nobody gains rank `limit` or
   more, and every member above `limit` keeps exactly what it has.
   */
  lemma {:induction false} EveryRunRaisesNone(t: Table, ops: seq<Operation>, limit: nat)
    requires UniqueIds(t) && limit < Rank(Owner) && ActsBelow(t, ops, limit)
    ensures NoneRaised(t, After(t, ops), limit)
    decreases |ops|
  {
    if ops != [] {
      StepRaisesNone(t, ops[0], limit);
      EveryRunRaisesNone(Step(t, ops[0]), ops[1..], limit);
    }
  }

  /** Admins, editors, viewers and their API keys can neither make an owner nor unmake one. */
  lemma OwnersAreOutOfReach(t: Table, ops: seq<Operation>, w: string)
    requires UniqueIds(t) && ActsBelow(t, ops, Rank(Admin))
    ensures Owners(After(t, ops), w) == Owners(t, w)
  {
    EveryRunRaisesNone(t, ops, Rank(Admin));
    assert NoneRaised(t, After(t, ops), Rank(Admin));
  }

  /** A role change is accepted exactly for a member strictly below, and a role strictly below or owner by owner. */
  lemma UpdateRoleAcceptedExactly(t: Table, k: Key, role: Role, actor: Actor)
    ensures UpdateRoleVerdict(t, k, role, actor) == Done
       <==> && k in t && actor.userId != k.userId
            && Rank(t[k].role) < Rank(actor.role)
            && (Rank(role) < Rank(actor.role) || (role == Owner && actor.role == Owner))
  {
  }

  /** What a transfer leaves: the old owner an admin, the new one an owner, and everyone else as before. */
  ghost predicate HandedOver(before: Table, after: Table, from: Key, to: Key) {
    && from in before && to in before && before[from].role == Owner
    && after.Keys == before.Keys
    && after[from] == Membership(before[from].id, Admin) && after[to] == Membership(before[to].id, Owner)
    && forall k <- before | k != from && k != to :: after[k] == before[k]
  }

  /** A transfer never makes an owner more: it keeps their number, or lowers it if the new one already was an owner. */
  lemma TransferKeepsTheNumber(t: Table, w: string, to: string, from: string)
    requires TransferVerdict(t, Key(w, from), Key(w, to)) == Done
    ensures var after := Step(t, TransferOwnership(w, to, from));
            && HandedOver(t, after, Key(w, from), Key(w, to))
            && |Owners(after, w)| == |Owners(t, w)| - if t[Key(w, to)].role == Owner then 1 else 0
  {
    var after := Step(t, TransferOwnership(w, to, from));
    assert Owners(after, w) == Owners(t, w) - {Key(w, from)} + {Key(w, to)};
    assert Key(w, from) in Owners(t, w);
    assert |Owners(t, w) - {Key(w, from)}| == |Owners(t, w)| - 1;
    if t[Key(w, to)].role == Owner {
      assert Key(w, to) in Owners(t, w) - {Key(w, from)};
      assert Owners(after, w) == Owners(t, w) - {Key(w, from)};
    }
  }

  lemma TransferAcceptedExactly(t: Table, w: string, to: string, from: string)
    ensures Step(t, TransferOwnership(w, to, from)) != t
       <==> && Key(w, from) in t && Key(w, to) in t && from != to
            && t[Key(w, from)].role == Owner
  {
    if TransferVerdict(t, Key(w, from), Key(w, to)) == Done {
      assert Step(t, TransferOwnership(w, to, from))[Key(w, from)].role == Admin;
    }
  }

  /**
   A removal takes away exactly the member named, and only: by someone else, of a lower rank, or by an
   owner of another owner who is not the last one.
   */
  lemma RemovedExactly(t: Table, w: string, userId: string, actor: Actor)
    requires UniqueIds(t)
    ensures var k := Key(w, userId);
            && Step(t, Remove(w, userId, actor))
               == (if RemoveVerdict(t, k, actor) == Done then t - {k} else t)
            && (RemoveVerdict(t, k, actor) == Done
                <==> k in t && actor.userId != userId
                     && (Rank(t[k].role) < Rank(actor.role)
                         || (t[k].role == actor.role == Owner && exists l <- t :: IsOtherOwner(t, k, l))))
  {
    var k := Key(w, userId);
    if k in t {
      DeleteOne(t, k);
      OtherOwnerExactly(t, k);
    }
  }

  predicate IsOtherOwner(t: Table, k: Key, l: Key) {
    l in t && l != k && l.workspaceId == k.workspaceId && t[l].role == Owner
  }

  lemma OtherOwnerExactly(t: Table, k: Key)
    requires k in t
    ensures t[k].role == Owner ==>
              (|Owners(t, k.workspaceId)| > 1 <==> exists l <- t :: IsOtherOwner(t, k, l))
  {
    if t[k].role == Owner {
      var others := Owners(t, k.workspaceId) - {k};
      assert |others| == |Owners(t, k.workspaceId)| - 1;
      if l :| l in t && IsOtherOwner(t, k, l) {
        assert l in others;
      } else {
        assert others == {};
      }
    }
  }

  /** Anyone may leave but the last owner, and leaving takes away exactly that membership. */
  lemma LeftExactly(t: Table, w: string, userId: string)
    requires UniqueIds(t)
    ensures var k := Key(w, userId);
            Step(t, Leave(w, userId))
            == if k in t && (t[k].role == Owner ==> exists l <- t :: IsOtherOwner(t, k, l)) then t - {k} else t
  {
    var k := Key(w, userId);
    if k in t {
      DeleteOne(t, k);
      OtherOwnerExactly(t, k);
    }
  }

  class MembersService {
    var memberships: Table
    const users: set<string>

    constructor (memberships: Table, users: set<string>)
      ensures this.memberships == memberships && this.users == users
    {
      this.memberships, this.users := memberships, users;
    }

    method CountOwners(workspaceId: string) returns (n: nat)
      ensures n == |Owners(memberships, workspaceId)|
    {
      n := |set k | k in memberships && k.workspaceId == workspaceId && memberships[k].role == Owner|;
    }

    method UpdateMemberRole(workspaceId: string, userId: string, role: Role, actor: Actor) returns (outcome: Outcome)
      modifies this
      ensures memberships == Step(old(memberships), UpdateRole(workspaceId, userId, role, actor))
      ensures outcome == var verdict := UpdateRoleVerdict(old(memberships), Key(workspaceId, userId), role, actor);
                         if verdict == Done && userId !in users then UserNotFound else verdict
    {
      var k := Key(workspaceId, userId);
      if k !in memberships {
        return NotFound;
      }
      if actor.userId == userId {
        return BadRequest;
      }
      if !CanModifyMember(actor.role, memberships[k].role) {
        return Forbidden;
      }
      if role == Owner && actor.role != Owner {
        return Forbidden;
      }
      if Rank(role) > Rank(actor.role) || (role != Owner && Rank(role) >= Rank(actor.role)) {
        return Forbidden;
      }
      memberships := memberships[k := memberships[k].(role := role)];
      // The response needs the user's details; the change is already written.
      outcome := if userId in users then Done else UserNotFound;
    }

    method RemoveMember(workspaceId: string, userId: string, actor: Actor) returns (outcome: Outcome)
      modifies this
      ensures memberships == Step(old(memberships), Remove(workspaceId, userId, actor))
      ensures outcome == RemoveVerdict(old(memberships), Key(workspaceId, userId), actor)
    {
      var k := Key(workspaceId, userId);
      if k !in memberships {
        return NotFound;
      }
      var target := memberships[k];
      if actor.userId == userId {
        return BadRequest;
      }
      if target.role == Owner && actor.role != Owner {
        return Forbidden;
      }
      if target.role == Owner {
        var ownerCount := CountOwners(workspaceId);
        if ownerCount <= 1 {
          return Forbidden;
        }
      }
      if target.role != Owner && !CanModifyMember(actor.role, target.role) {
        return Forbidden;
      }
      memberships := map m | m in memberships && memberships[m].id != target.id :: memberships[m];
      outcome := Done;
    }

    method LeaveWorkspace(workspaceId: string, userId: string) returns (outcome: Outcome)
      modifies this
      ensures memberships == Step(old(memberships), Leave(workspaceId, userId))
      ensures outcome == LeaveVerdict(old(memberships), Key(workspaceId, userId))
    {
      var k := Key(workspaceId, userId);
      if k !in memberships {
        return NotFound;
      }
      var membership := memberships[k];
      if membership.role == Owner {
        var ownerCount := CountOwners(workspaceId);
        if ownerCount <= 1 {
          return BadRequest;
        }
      }
      memberships := map m | m in memberships && memberships[m].id != membership.id :: memberships[m];
      outcome := Done;
    }

    method Transfer(workspaceId: string, newOwnerId: string, actorId: string) returns (outcome: Outcome)
      modifies this
      ensures memberships == Step(old(memberships), TransferOwnership(workspaceId, newOwnerId, actorId))
      ensures outcome == var from, to := Key(workspaceId, actorId), Key(workspaceId, newOwnerId);
                         var verdict := TransferVerdict(old(memberships), from, to);
                         if verdict == Done && !(actorId in users && newOwnerId in users) then UserNotFound else verdict
      ensures outcome in {Done, UserNotFound} ==>
                HandedOver(old(memberships), memberships, Key(workspaceId, actorId), Key(workspaceId, newOwnerId))
    {
      var from, to := Key(workspaceId, actorId), Key(workspaceId, newOwnerId);
      if from !in memberships || memberships[from].role != Owner {
        return Forbidden;
      }
      if actorId == newOwnerId {
        return BadRequest;
      }
      if to !in memberships {
        return NotFound;
      }
      memberships := memberships[from := memberships[from].(role := Admin)][to := memberships[to].(role := Owner)];
      outcome := if actorId in users && newOwnerId in users then Done else UserNotFound;
    }
  }
}
