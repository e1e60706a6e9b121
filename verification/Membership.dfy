/** The ownership transfer of a clone (postgresadmin/duplicate.go): inside one transaction
    the admin takes temporary memberships in the roles that own the clone's objects, hands
    every object to the new owner, and gives the memberships back. */
module Membership {
  import opened Prelude
  import opened Catalog
  import opened Verdicts

  /** Direct grants (member, role), with whether the grant inherits. */
  type Grants = map<(Name, Name), bool>

  // ----- what a role is a member of -----

  function Edges(g: Grants, inheritOnly: bool): set<(Name, Name)> {
    set e | e in g && (inheritOnly ==> g[e])
  }

  predicate Closed(edges: set<(Name, Name)>, s: set<Name>) {
    forall e :: e in edges && e.0 in s ==> e.1 in s
  }

  function Targets(edges: set<(Name, Name)>): set<Name> {
    set e | e in edges :: e.1
  }

  /** The set grown along the edges until nothing is added. */
  function Closure(edges: set<(Name, Name)>, have: set<Name>): (all: set<Name>)
    ensures have <= all && Closed(edges, all)
    decreases Targets(edges) - have
  {
    var next := have + set e | e in edges && e.0 in have :: e.1;
    if next == have then
      assert forall e :: e in edges && e.0 in have ==> e.1 in next;
      have
    else
      assert forall x :: x in next && x !in have ==> x in Targets(edges);
      assert exists x :: x in next && x !in have;
      Closure(edges, next)
  }

  lemma {:induction false} ClosureIsLeast(edges: set<(Name, Name)>, have: set<Name>, s: set<Name>)
    requires have <= s && Closed(edges, s)
    ensures Closure(edges, have) <= s
    decreases Targets(edges) - have
  {
    var next := have + set e | e in edges && e.0 in have :: e.1;
    if next != have {
      assert forall x :: x in next && x !in have ==> x in Targets(edges);
      assert exists x :: x in next && x !in have;
      ClosureIsLeast(edges, next, s);
    }
  }

  /** The roles that pg_has_role(who, ...) accepts: MEMBER follows every grant, USAGE only
      the inheriting ones. */
  function Roles(g: Grants, inheritOnly: bool, who: Name): set<Name> {
    Closure(Edges(g, inheritOnly), {who})
  }

  lemma MoreGrantsMoreRoles(g: Grants, h: Grants, inheritOnly: bool, who: Name)
    requires Edges(g, inheritOnly) <= Edges(h, inheritOnly)
    ensures Roles(g, inheritOnly, who) <= Roles(h, inheritOnly, who)
  {
    ClosureIsLeast(Edges(g, inheritOnly), {who}, Roles(h, inheritOnly, who));
  }

  lemma RolesOfRoles(g: Grants, inheritOnly: bool, who: Name, role: Name)
    requires role in Roles(g, inheritOnly, who)
    ensures Roles(g, inheritOnly, role) <= Roles(g, inheritOnly, who)
  {
    ClosureIsLeast(Edges(g, inheritOnly), {role}, Roles(g, inheritOnly, who));
  }

  lemma DirectGrant(g: Grants, inheritOnly: bool, member: Name, role: Name)
    requires (member, role) in Edges(g, inheritOnly)
    ensures role in Roles(g, inheritOnly, member)
  {
    assert (member, role).0 in Roles(g, inheritOnly, member);
  }

  // ----- the memberships that ensure takes, without faults -----

  /** The connection's user, the configured admin name, and whether the user is a superuser. */
  datatype Session = Session(user: Name, admin: Name, superuser: bool)

  datatype Held = Held(grants: Grants, resolved: set<Name>, temporary: seq<Name>)

  /** What QuoteCatalogIdentifier accepts. */
  predicate ValidCatalogName(name: Name) { name != "" && '\0' !in name }

  predicate MayUse(s: Session, g: Grants, owner: Name) {
    s.superuser || owner in Roles(g, true, s.user)
  }

  /** The server takes GRANT owner TO admin: owner is not itself a member of admin. */
  predicate Grantable(g: Grants, admin: Name, owner: Name) {
    admin !in Roles(g, false, owner)
  }

  /** One ensure call; None is its refusal. */
  function Ensured(s: Session, h: Held, owner: Name): Option<Held> {
    if owner in h.resolved then Some(h)
    else if s.user != s.admin then None
    else if MayUse(s, h.grants, owner) then Some(h.(resolved := h.resolved + {owner}))
    else if owner in Roles(h.grants, false, s.user) then None
    else if !ValidCatalogName(owner) || !ValidIdentifier(s.admin) then None
    else if !Grantable(h.grants, s.admin, owner) then None
    else Some(Held(h.grants[(s.admin, owner) := true], h.resolved + {owner}, h.temporary + [owner]))
  }

  function EnsuredAll(s: Session, h: Held, owners: seq<Name>): Option<Held> {
    if owners == [] then Some(h)
    else
      var rest := EnsuredAll(s, h, owners[..|owners| - 1]);
      if rest.None? then None else Ensured(s, rest.value, owners[|owners| - 1])
  }

  /** The start grants with the temporary ones added. */
  function WithTemporary(start: Grants, admin: Name, temporary: seq<Name>): Grants {
    if temporary == [] then start
    else WithTemporary(start, admin, temporary[..|temporary| - 1])[(admin, temporary[|temporary| - 1]) := true]
  }

  /** The grants are the start grants plus one new, distinct, inheriting grant for each
      temporary owner, and every resolved owner may be used. */
  predicate Balanced(s: Session, start: Grants, h: Held) {
    h.grants == WithTemporary(start, s.admin, h.temporary) &&
    (forall i :: 0 <= i < |h.temporary| ==> (s.admin, h.temporary[i]) !in start) &&
    (forall i, j :: 0 <= i < j < |h.temporary| ==> h.temporary[i] != h.temporary[j]) &&
    (forall o :: o in h.temporary ==> ValidCatalogName(o) && ValidIdentifier(s.admin)) &&
    (forall o :: o in h.resolved ==> MayUse(s, h.grants, o))
  }

  lemma {:induction false} TemporaryKeys(start: Grants, admin: Name, temporary: seq<Name>)
    ensures var g := WithTemporary(start, admin, temporary);
            forall e :: e in g <==> e in start || (e.0 == admin && e.1 in temporary)
    ensures var g := WithTemporary(start, admin, temporary);
            forall e :: e in g ==> g[e] == if e.0 == admin && e.1 in temporary then true else start[e]
  {
    if temporary != [] {
      TemporaryKeys(start, admin, temporary[..|temporary| - 1]);
      assert temporary == temporary[..|temporary| - 1] + [temporary[|temporary| - 1]];
    }
  }

  /** A grant takes a role that was not granted before, and no role becomes unusable. */
  lemma GrantMakesUsable(s: Session, h: Held, owner: Name)
    requires s.user == s.admin && owner !in Roles(h.grants, false, s.admin)
    ensures (s.admin, owner) !in h.grants
    ensures var g := h.grants[(s.admin, owner) := true];
            MayUse(s, g, owner) && forall o :: MayUse(s, h.grants, o) ==> MayUse(s, g, o)
  {
    hide Closure;
    var g := h.grants[(s.admin, owner) := true];
    if (s.admin, owner) in h.grants {
      DirectGrant(h.grants, false, s.admin, owner);
    }
    MoreGrantsMoreRoles(h.grants, g, true, s.user);
    DirectGrant(g, true, s.admin, owner);
  }

  /** An ensure call keeps the balance, never grants an owner twice nor one that the admin
      had before, and leaves the session able to use the owner. */
  lemma EnsureKeepsBalance(s: Session, start: Grants, h: Held, owner: Name)
    requires Balanced(s, start, h) && Ensured(s, h, owner).Some?
    ensures var n := Ensured(s, h, owner).value;
            Balanced(s, start, n) && MayUse(s, n.grants, owner) && h.temporary <= n.temporary
  {
    if owner !in h.resolved && !MayUse(s, h.grants, owner) {
      GrantKeepsBalance(s, start, h, owner);
    } else if owner !in h.resolved {
      ResolveKeepsBalance(s, start, h, owner);
    }
    hide Closure, Edges, Roles, Grantable, WithTemporary, MayUse, ValidCatalogName, ValidIdentifier;
  }

  lemma ResolveKeepsBalance(s: Session, start: Grants, h: Held, owner: Name)
    requires Balanced(s, start, h) && MayUse(s, h.grants, owner)
    ensures Balanced(s, start, h.(resolved := h.resolved + {owner}))
  {
    hide MayUse, WithTemporary, ValidCatalogName, ValidIdentifier;
  }

  lemma GrantKeepsBalance(s: Session, start: Grants, h: Held, owner: Name)
    requires Balanced(s, start, h) && s.user == s.admin && owner !in Roles(h.grants, false, s.admin)
    requires ValidCatalogName(owner) && ValidIdentifier(s.admin)
    ensures var n := Held(h.grants[(s.admin, owner) := true], h.resolved + {owner}, h.temporary + [owner]);
            Balanced(s, start, n) && MayUse(s, n.grants, owner)
  {
    hide Closure, Roles, MayUse, ValidCatalogName, ValidIdentifier;
    GrantMakesUsable(s, h, owner);
    var more := h.temporary + [owner];
    assert more[..|more| - 1] == h.temporary;
    TemporaryKeys(start, s.admin, h.temporary);
    hide WithTemporary;
    forall i, j | 0 <= i < j < |more| ensures more[i] != more[j] {
      if j == |more| - 1 { assert more[i] == h.temporary[i] && more[i] in h.temporary; }
    }
  }

  lemma {:induction false} EnsureAllKeepsBalance(s: Session, start: Grants, h: Held, owners: seq<Name>)
    requires Balanced(s, start, h) && EnsuredAll(s, h, owners).Some?
    ensures Balanced(s, start, EnsuredAll(s, h, owners).value)
  {
    if owners != [] {
      var front := owners[..|owners| - 1];
      EnsureAllKeepsBalance(s, start, h, front);
      EnsureKeepsBalance(s, start, EnsuredAll(s, h, front).value, owners[|owners| - 1]);
    }
  }

  /** One REVOKE of the release, from the last grant backwards. */
  lemma RevokeLast(start: Grants, admin: Name, temporary: seq<Name>, n: nat)
    requires n < |temporary|
    requires forall i :: 0 <= i < |temporary| ==> (admin, temporary[i]) !in start
    requires forall i, j :: 0 <= i < j < |temporary| ==> temporary[i] != temporary[j]
    ensures WithTemporary(start, admin, temporary[..n + 1]) - {(admin, temporary[n])} ==
            WithTemporary(start, admin, temporary[..n])
  {
    var upto := temporary[..n + 1];
    assert upto[..|upto| - 1] == temporary[..n] && upto[|upto| - 1] == temporary[n];
    TemporaryKeys(start, admin, temporary[..n]);
    assert temporary[n] !in temporary[..n];
  }

  // ----- which transfers can succeed -----

  /** Whether a transfer gets an owner after the earlier ones of its listing, by the grants
      at the start alone: the session has it, or has it through an earlier owner it had to
      take, or may take it and is no member of it without USAGE. */
  ghost predicate Obtainable(s: Session, start: Grants, earlier: seq<Name>, owner: Name) {
    MayUse(s, start, owner) ||
    (exists a :: a in earlier && !MayUse(s, start, a) && owner in Roles(start, true, a)) ||
    (Takeable(s, start, owner) &&
     forall a :: a in earlier && !MayUse(s, start, a) ==> owner !in Roles(start, false, a))
  }

  /** The session is no member of the owner, and the server takes the grant. */
  predicate Takeable(s: Session, start: Grants, owner: Name) {
    owner !in Roles(start, false, s.admin) && ValidCatalogName(owner) && ValidIdentifier(s.admin) &&
    Grantable(start, s.admin, owner)
  }

  lemma RolesSplitBack(start: Grants, g: Grants, admin: Name, taken: seq<Name>, inheritOnly: bool)
    requires g == WithTemporary(start, admin, taken)
    ensures forall x :: x in Roles(g, inheritOnly, admin) ==>
              x in Roles(start, inheritOnly, admin) || exists t :: t in taken && x in Roles(start, inheritOnly, t)
  {
    TemporaryKeys(start, admin, taken);
    var edges := Edges(g, inheritOnly);
    var s := set x | x in Roles(g, inheritOnly, admin) &&
                     (x in Roles(start, inheritOnly, admin) || exists t :: t in taken && x in Roles(start, inheritOnly, t));
    forall e | e in edges && e.0 in s ensures e.1 in s {
      if e.0 == admin && e.1 in taken {
        assert e.1 in Roles(start, inheritOnly, e.1);
      } else {
        assert e in Edges(start, inheritOnly);
      }
    }
    ClosureIsLeast(edges, {admin}, s);
  }

  /** With the temporary grants the admin has its own roles and those of each taken owner. */
  lemma RolesSplit(start: Grants, g: Grants, admin: Name, taken: seq<Name>, inheritOnly: bool, x: Name)
    requires g == WithTemporary(start, admin, taken)
    ensures x in Roles(g, inheritOnly, admin) <==>
            x in Roles(start, inheritOnly, admin) || exists t :: t in taken && x in Roles(start, inheritOnly, t)
  {
    RolesSplitBack(start, g, admin, taken, inheritOnly);
    TemporaryGrow(start, g, admin, taken, inheritOnly);
    hide Closure, Edges, WithTemporary;
    MoreGrantsMoreRoles(start, g, inheritOnly, admin);
    if t :| t in taken && x in Roles(start, inheritOnly, t) {
      MoreGrantsMoreRoles(start, g, inheritOnly, t);
      DirectGrant(g, inheritOnly, admin, t);
      RolesOfRoles(g, inheritOnly, admin, t);
    }
  }

  lemma TemporaryGrow(start: Grants, g: Grants, admin: Name, taken: seq<Name>, inheritOnly: bool)
    requires g == WithTemporary(start, admin, taken)
    ensures forall e :: e in Edges(start, inheritOnly) ==> e in Edges(g, inheritOnly)
    ensures Edges(start, inheritOnly) <= Edges(g, inheritOnly)
    ensures forall t :: t in taken ==> (admin, t) in Edges(g, inheritOnly)
    ensures forall e :: e in start ==> e in g
    ensures forall e :: e in g && e.0 != admin ==> e in start
  {
    TemporaryKeys(start, admin, taken);
  }

  /** Temporary grants to the admin do not change who is a member of the admin. */
  lemma SameMembersOfAdmin(g: Grants, h: Grants, admin: Name, role: Name)
    requires forall e :: e in g ==> e in h
    requires forall e :: e in h && e.0 != admin ==> e in g
    ensures admin in Roles(h, false, role) <==> admin in Roles(g, false, role)
  {
    assert Edges(g, false) <= Edges(h, false);
    MoreGrantsMoreRoles(g, h, false, role);
    if admin !in Roles(g, false, role) {
      ClosureIsLeast(Edges(h, false), {role}, Roles(g, false, role));
    }
  }

  lemma StartIsBalanced(s: Session, start: Grants)
    ensures Balanced(s, start, Held(start, {}, []))
  {
  }

  /** After a successful listing: the owners it asked for are resolved, those taken were not
      usable before, and each that was not usable is reached through a taken one. */
  ghost predicate Collected(s: Session, start: Grants, h: Held, owners: seq<Name>) {
    Balanced(s, start, h) &&
    (forall o :: o in h.resolved <==> o in owners) &&
    (forall t :: t in h.temporary ==> t in owners && !MayUse(s, start, t)) &&
    (forall o :: o in owners && !MayUse(s, start, o) ==> exists t :: t in h.temporary && o in Roles(start, true, t))
  }

  lemma InheritedIsMember(g: Grants, who: Name)
    ensures Roles(g, true, who) <= Roles(g, false, who)
  {
    ClosureIsLeast(Edges(g, true), {who}, Roles(g, false, who));
  }

  /** What is reached through an earlier owner is reached through a taken one. */
  lemma ThroughTaken(s: Session, start: Grants, h: Held, owners: seq<Name>, x: Name, inheritOnly: bool)
    requires Collected(s, start, h, owners)
    ensures (exists t :: t in h.temporary && x in Roles(start, inheritOnly, t)) <==>
            (exists a :: a in owners && !MayUse(s, start, a) && x in Roles(start, inheritOnly, a))
  {
    hide Closure, Edges, WithTemporary, Balanced, Roles;
    if a :| a in owners && !MayUse(s, start, a) && x in Roles(start, inheritOnly, a) {
      var t :| t in h.temporary && a in Roles(start, true, t);
      InheritedIsMember(start, t);
      RolesOfRoles(start, inheritOnly, t, a);
      assert x in Roles(start, inheritOnly, t);
    }
  }

  /** The admin's roles with the grants held, told by the grants at the start. */
  lemma RolesHeld(s: Session, start: Grants, h: Held, owners: seq<Name>, x: Name, inheritOnly: bool)
    requires Collected(s, start, h, owners)
    ensures x in Roles(h.grants, inheritOnly, s.admin) <==>
            x in Roles(start, inheritOnly, s.admin) ||
            exists a :: a in owners && !MayUse(s, start, a) && x in Roles(start, inheritOnly, a)
  {
    hide Closure, Edges, WithTemporary, Roles, MayUse;
    RolesSplit(start, h.grants, s.admin, h.temporary, inheritOnly, x);
    ThroughTaken(s, start, h, owners, x, inheritOnly);
  }

  lemma GrantableHeld(s: Session, start: Grants, h: Held, owners: seq<Name>, owner: Name)
    requires Collected(s, start, h, owners)
    ensures Grantable(h.grants, s.admin, owner) <==> Grantable(start, s.admin, owner)
  {
    hide Closure, Edges, WithTemporary, Roles, MayUse;
    TemporaryGrow(start, h.grants, s.admin, h.temporary, false);
    SameMembersOfAdmin(start, h.grants, s.admin, owner);
  }

  lemma OneEnsureSucceedsIff(s: Session, start: Grants, h: Held, owners: seq<Name>, owner: Name)
    requires s.user == s.admin && Collected(s, start, h, owners) && owner !in h.resolved
    ensures Ensured(s, h, owner).Some? <==> Obtainable(s, start, owners, owner)
  {
    hide Closure, Edges, Balanced, Roles, Collected, Grantable, ValidCatalogName, ValidIdentifier;
    RolesHeld(s, start, h, owners, owner, true);
    RolesHeld(s, start, h, owners, owner, false);
    GrantableHeld(s, start, h, owners, owner);
    forall a | a in owners && owner in Roles(start, true, a) ensures owner in Roles(start, false, a) {
      InheritedIsMember(start, a);
    }
    InheritedIsMember(start, s.admin);
    InheritedIsMember(h.grants, s.admin);
  }

  /** An owner usable now but not at the start is reached through a taken one. */
  lemma UsableThroughTaken(s: Session, start: Grants, h: Held, owner: Name)
    requires s.user == s.admin && Balanced(s, start, h) && MayUse(s, h.grants, owner) && !MayUse(s, start, owner)
    ensures exists t :: t in h.temporary && owner in Roles(start, true, t)
  {
    hide Closure, Edges, WithTemporary, Roles;
    RolesSplit(start, h.grants, s.admin, h.temporary, true, owner);
  }

  lemma OwnRole(g: Grants, inheritOnly: bool, who: Name)
    ensures who in Roles(g, inheritOnly, who)
  {
  }

  lemma EnsureCollects(s: Session, start: Grants, h: Held, owners: seq<Name>, owner: Name)
    requires s.user == s.admin && Collected(s, start, h, owners) && Ensured(s, h, owner).Some?
    ensures Collected(s, start, Ensured(s, h, owner).value, owners + [owner])
  {
    hide Closure, Edges, WithTemporary, Balanced, MayUse, Roles, Grantable, ValidCatalogName, ValidIdentifier;
    var n := Ensured(s, h, owner).value;
    EnsureKeepsBalance(s, start, h, owner);
    MoreUsable(s, start, h, owner);
    if owner in owners || MayUse(s, h.grants, owner) {
      assert n.temporary == h.temporary && n.resolved == h.resolved + {owner};
      if owner !in owners && !MayUse(s, start, owner) { UsableThroughTaken(s, start, h, owner); }
      hide Ensured;
    } else {
      OwnRole(start, true, owner);
      assert n.temporary == h.temporary + [owner] && n.resolved == h.resolved + {owner};
      hide Ensured;
      forall o | o in owners && !MayUse(s, start, o) ensures exists t :: t in n.temporary && o in Roles(start, true, t) {
        var t :| t in h.temporary && o in Roles(start, true, t);
        assert t in n.temporary;
      }
      assert owner in n.temporary;
    }
  }

  /** What was usable at the start is usable with the temporary grants. */
  lemma MoreUsable(s: Session, start: Grants, h: Held, owner: Name)
    requires Balanced(s, start, h)
    ensures MayUse(s, start, owner) ==> MayUse(s, h.grants, owner)
  {
    TemporaryGrow(start, h.grants, s.admin, h.temporary, true);
    MoreGrantsMoreRoles(start, h.grants, true, s.user);
  }

  /** The ensure calls of a transfer, for any grants at the start and any listing: they
      succeed exactly when the session is the admin's and each owner can be had after the
      ones before it. */
  lemma {:induction false} TransferSucceedsIff(s: Session, start: Grants, owners: seq<Name>)
    ensures EnsuredAll(s, Held(start, {}, []), owners).Some? <==>
            owners == [] ||
            (s.user == s.admin && forall i :: 0 <= i < |owners| ==> Obtainable(s, start, owners[..i], owners[i]))
    ensures var end := EnsuredAll(s, Held(start, {}, []), owners);
            end.Some? ==> Collected(s, start, end.value, owners)
  {
    hide Obtainable, Collected, Ensured;
    var h0 := Held(start, {}, []);
    if owners == [] {
      NothingCollected(s, start);
    } else {
      var n := |owners| - 1;
      var front, last := owners[..n], owners[n];
      assert owners == front + [last];
      assert forall i :: 0 <= i < n ==> front[..i] == owners[..i] && front[i] == owners[i];
      TransferSucceedsIff(s, start, front);
      var rest := EnsuredAll(s, h0, front);
      if rest.Some? {
        if s.user != s.admin {
          StrangerIsRefused(s, start, front, last);
        } else {
          ResolvedIsObtainable(s, start, rest.value, front, last);
          if last !in rest.value.resolved { OneEnsureSucceedsIff(s, start, rest.value, front, last); }
          if Ensured(s, rest.value, last).Some? { EnsureCollects(s, start, rest.value, front, last); }
        }
      }
    }
  }

  lemma NothingCollected(s: Session, start: Grants)
    ensures Collected(s, start, Held(start, {}, []), [])
  {
    StartIsBalanced(s, start);
    hide Balanced;
  }

  lemma StrangerIsRefused(s: Session, start: Grants, front: seq<Name>, last: Name)
    requires s.user != s.admin && EnsuredAll(s, Held(start, {}, []), front).Some? && front == []
    ensures Ensured(s, EnsuredAll(s, Held(start, {}, []), front).value, last).None?
  {
  }

  lemma ResolvedIsObtainable(s: Session, start: Grants, h: Held, front: seq<Name>, last: Name)
    requires Collected(s, start, h, front)
    ensures last in h.resolved ==> Obtainable(s, start, front, last) && Ensured(s, h, last).Some?
  {
    assert last in Roles(start, true, last);
    hide Closure, Balanced, Roles;
  }

  // ----- every order -----

  /** A listing of the owners: each at least once, in some order. */
  ghost predicate Lists(list: seq<Name>, owners: set<Name>) {
    forall o :: o in list <==> o in owners
  }

  /** What a caller can check before the transfer: the session has or may take each owner,
      and no two owners it must take are members of one another without USAGE. */
  ghost predicate FitsEveryOrder(s: Session, start: Grants, owners: set<Name>) {
    owners == {} ||
    (s.user == s.admin &&
     (forall o :: o in owners ==> MayUse(s, start, o) || Takeable(s, start, o)) &&
     forall a, b :: a in owners && b in owners && !MayUse(s, start, a) && !MayUse(s, start, b) ==>
       b in Roles(start, false, a) ==> b in Roles(start, true, a))
  }

  lemma {:induction false} SomeListing(owners: set<Name>) returns (list: seq<Name>)
    ensures Lists(list, owners)
    decreases |owners|
  {
    if owners == {} {
      list := [];
    } else {
      var o :| o in owners;
      var rest := SomeListing(owners - {o});
      list := [o] + rest;
    }
  }

  lemma FittingOrderSucceeds(s: Session, start: Grants, owners: set<Name>, list: seq<Name>)
    requires FitsEveryOrder(s, start, owners) && Lists(list, owners)
    ensures EnsuredAll(s, Held(start, {}, []), list).Some?
  {
    TransferSucceedsIff(s, start, list);
    hide Closure, Roles, MayUse, Takeable, EnsuredAll;
    if list != [] {
      assert list[0] in list;
      forall i | 0 <= i < |list| ensures Obtainable(s, start, list[..i], list[i]) {
        assert list[i] in list;
        forall a | a in list[..i] ensures a in owners { assert a in list; }
      }
    }
  }

  /** One listing with given first owners. */
  lemma SucceedsFirst(s: Session, start: Grants, owners: set<Name>, first: seq<Name>, i: nat)
    requires (forall o :: o in first ==> o in owners) && i < |first|
    requires forall list :: Lists(list, owners) ==> EnsuredAll(s, Held(start, {}, []), list).Some?
    ensures s.user == s.admin && Obtainable(s, start, first[..i], first[i])
  {
    var rest := SomeListing(owners);
    var list := first + rest;
    assert Lists(list, owners);
    TransferSucceedsIff(s, start, list);
    assert list[..i] == first[..i] && list[i] == first[i];
  }

  /** Every listing order succeeds if and only if the owners fit. */
  lemma EveryOrderSucceedsIff(s: Session, start: Grants, owners: set<Name>)
    ensures (forall list :: Lists(list, owners) ==> EnsuredAll(s, Held(start, {}, []), list).Some?) <==>
            FitsEveryOrder(s, start, owners)
  {
    hide EnsuredAll, MayUse, Takeable, Roles;
    if FitsEveryOrder(s, start, owners) {
      forall list | Lists(list, owners) ensures EnsuredAll(s, Held(start, {}, []), list).Some? {
        FittingOrderSucceeds(s, start, owners, list);
      }
    }
    if forall list :: Lists(list, owners) ==> EnsuredAll(s, Held(start, {}, []), list).Some? {
      forall o | o in owners ensures s.user == s.admin && (MayUse(s, start, o) || Takeable(s, start, o)) {
        SucceedsFirst(s, start, owners, [o], 0);
      }
      forall a, b | a in owners && b in owners && !MayUse(s, start, a) && !MayUse(s, start, b) && b in Roles(start, false, a)
        ensures b in Roles(start, true, a)
      {
        SucceedsFirst(s, start, owners, [a, b], 1);
        assert [a, b][..1] == [a];
      }
    }
  }

  /** A role outside the admin's closed set s0, whose own roles t exclude the admin, is taken. */
  lemma EnsureTakes(s: Session, h: Held, owner: Name, mine: set<Name>, theirs: set<Name>)
    requires s.user == s.admin && !s.superuser && owner !in h.resolved && ValidCatalogName(owner) && ValidIdentifier(s.admin)
    requires s.admin in mine && Closed(Edges(h.grants, false), mine) && owner !in mine
    requires owner in theirs && Closed(Edges(h.grants, false), theirs) && s.admin !in theirs
    ensures Ensured(s, h, owner) ==
            Some(Held(h.grants[(s.admin, owner) := true], h.resolved + {owner}, h.temporary + [owner]))
  {
    ClosureIsLeast(Edges(h.grants, false), {s.admin}, mine);
    ClosureIsLeast(Edges(h.grants, false), {owner}, theirs);
    InheritedIsMember(h.grants, s.admin);
    hide Closure;
  }

  /** A member of the owner without USAGE is refused. */
  lemma EnsureRefuses(s: Session, h: Held, via: Name, owner: Name, usable: set<Name>)
    requires s.user == s.admin && !s.superuser && owner !in h.resolved
    requires (s.admin, via) in h.grants && (via, owner) in h.grants
    requires s.admin in usable && Closed(Edges(h.grants, true), usable) && owner !in usable
    ensures Ensured(s, h, owner).None?
  {
    DirectGrant(h.grants, false, s.admin, via);
    DirectGrant(h.grants, false, via, owner);
    RolesOfRoles(h.grants, false, s.admin, via);
    ClosureIsLeast(Edges(h.grants, true), {s.admin}, usable);
    hide Closure;
  }

  /** With a grant that does not inherit the order does matter. Owner a is a member of
      owner b without inheriting: b before a succeeds, but once a is granted the admin is a
      member of b without USAGE, and the transfer is refused. */
  lemma OrderMatters(a: Name, b: Name, admin: Name)
    requires a != b && a != admin && b != admin && ValidIdentifier(admin) && ValidCatalogName(a) && ValidCatalogName(b)
    ensures var s, start := Session(admin, admin, false), map[(a, b) := false];
            EnsuredAll(s, Held(start, {}, []), [b, a]).Some? && EnsuredAll(s, Held(start, {}, []), [a, b]).None?
  {
    hide Ensured, Closure, ValidIdentifier, ValidCatalogName;
    var s, start := Session(admin, admin, false), map[(a, b) := false];
    var h0 := Held(start, {}, []);
    assert [b, a][..1] == [b] && [a, b][..1] == [a] && [b][..0] == [] && [a][..0] == [];
    EnsureTakes(s, h0, a, {admin}, {a, b});
    var ha := Ensured(s, h0, a).value;
    EnsureRefuses(s, ha, a, b, {admin, a});
    assert EnsuredAll(s, h0, [a]) == Some(ha);
    EnsureTakes(s, h0, b, {admin}, {b});
    var hb := Ensured(s, h0, b).value;
    EnsureTakes(s, hb, a, {admin, b}, {a, b});
    assert EnsuredAll(s, h0, [b]) == Some(hb);
  }

  // ----- the objects of the clone -----

  datatype Kind = Namespace | Relation | DataType | Routine

  datatype Object = Object(kind: Kind, owner: Name)

  datatype OwnedRow = OwnedRow(index: nat, owner: Name)

  /** The rows of one listing query: the objects of a kind that the new owner does not own. */
  function Listed(objects: seq<Object>, kind: Kind, newOwner: Name): seq<OwnedRow> {
    if objects == [] then []
    else
      var n := |objects| - 1;
      Listed(objects[..n], kind, newOwner) +
      if objects[n].kind == kind && objects[n].owner != newOwner then [OwnedRow(n, objects[n].owner)] else []
  }

  /** The owners of the rows that are not skipped. */
  function Wanted(p: Policy, c: Catalog, rows: seq<OwnedRow>): seq<Name> {
    if rows == [] then []
    else
      Wanted(p, c, rows[..|rows| - 1]) +
      if SkipsTransfer(p, c, rows[|rows| - 1].owner) then [] else [rows[|rows| - 1].owner]
  }

  /** The owners for which a transfer calls ensure, in its order. */
  function AllWanted(p: Policy, c: Catalog, objects: seq<Object>, newOwner: Name): seq<Name> {
    Wanted(p, c, Listed(objects, Namespace, newOwner)) + Wanted(p, c, Listed(objects, Relation, newOwner)) +
    Wanted(p, c, Listed(objects, DataType, newOwner)) + Wanted(p, c, Listed(objects, Routine, newOwner))
  }

  function Owners(objects: seq<Object>): seq<Name> {
    seq(|objects|, i requires 0 <= i < |objects| => objects[i].owner)
  }

  /** The objects of the kinds in done, and those whose index is in more, have moved. */
  predicate Moved(p: Policy, c: Catalog, base: seq<Object>, now: seq<Object>, newOwner: Name, done: set<Kind>, more: set<nat>) {
    |now| == |base| &&
    forall i :: 0 <= i < |now| ==>
      now[i].kind == base[i].kind &&
      now[i].owner == if (base[i].kind in done || i in more) && !SkipsTransfer(p, c, base[i].owner) then newOwner else base[i].owner
  }

  function Indices(rows: seq<OwnedRow>): set<nat> { set r | r in rows :: r.index }

  lemma {:induction false} ListedRows(objects: seq<Object>, kind: Kind, newOwner: Name)
    ensures var rows := Listed(objects, kind, newOwner);
            (forall r :: r in rows ==> r.index < |objects| && objects[r.index] == Object(kind, r.owner)) &&
            (forall i :: 0 <= i < |objects| && objects[i].kind == kind && objects[i].owner != newOwner ==> i in Indices(rows)) &&
            (forall i, j :: 0 <= i < j < |rows| ==> rows[i].index < rows[j].index)
  {
    var rows := Listed(objects, kind, newOwner);
    if objects != [] {
      var n := |objects| - 1;
      var front := Listed(objects[..n], kind, newOwner);
      ListedRows(objects[..n], kind, newOwner);
      forall i | 0 <= i < |objects| && objects[i].kind == kind && objects[i].owner != newOwner ensures i in Indices(rows) {
        if i < n {
          assert objects[..n][i] == objects[i];
          var r :| r in front && r.index == i;
          assert r in rows;
        } else {
          assert OwnedRow(n, objects[n].owner) in rows;
        }
      }
    }
  }

  lemma {:induction false} ListedSame(a: seq<Object>, b: seq<Object>, kind: Kind, newOwner: Name)
    requires |a| == |b| && forall i :: 0 <= i < |a| ==> a[i].kind == b[i].kind && (a[i].kind == kind ==> a[i] == b[i])
    ensures Listed(a, kind, newOwner) == Listed(b, kind, newOwner)
  {
    if a != [] {
      ListedSame(a[..|a| - 1], b[..|b| - 1], kind, newOwner);
    }
  }

  lemma {:induction false} EnsuredAllJoins(s: Session, h: Held, a: seq<Name>, b: seq<Name>)
    ensures EnsuredAll(s, h, a + b) ==
            if EnsuredAll(s, h, a).None? then None else EnsuredAll(s, EnsuredAll(s, h, a).value, b)
  {
    if b == [] {
      assert a + b == a;
    } else {
      assert (a + b)[..|a + b| - 1] == a + b[..|b| - 1];
      EnsuredAllJoins(s, h, a, b[..|b| - 1]);
    }
  }

  lemma WantedStep(p: Policy, c: Catalog, s: Session, h: Held, rows: seq<OwnedRow>, i: nat)
    requires i < |rows|
    ensures rows[..i + 1] == rows[..i] + [rows[i]] && Indices(rows[..i + 1]) == Indices(rows[..i]) + {rows[i].index}
    ensures SkipsTransfer(p, c, rows[i].owner) ==> Wanted(p, c, rows[..i + 1]) == Wanted(p, c, rows[..i])
    ensures var before := EnsuredAll(s, h, Wanted(p, c, rows[..i]));
            !SkipsTransfer(p, c, rows[i].owner) ==>
              EnsuredAll(s, h, Wanted(p, c, rows[..i + 1])) ==
              if before.None? then None else Ensured(s, before.value, rows[i].owner)
  {
    assert rows[..i + 1][..i] == rows[..i];
    var w := Wanted(p, c, rows[..i]);
    assert (w + [rows[i].owner])[..|w|] == w;
    assert Wanted(p, c, rows[..i + 1]) == w + if SkipsTransfer(p, c, rows[i].owner) then [] else [rows[i].owner];
    assert Indices(rows[..i + 1]) == Indices(rows[..i]) + {rows[i].index} by {
      assert forall r :: r in rows[..i + 1] <==> r in rows[..i] || r == rows[i];
    }
    hide Ensured, SkipsTransfer;
  }

  lemma {:induction false} WantedPrefix(p: Policy, c: Catalog, s: Session, h: Held, rows: seq<OwnedRow>, n: nat)
    requires n <= |rows| && EnsuredAll(s, h, Wanted(p, c, rows[..n])).None?
    ensures EnsuredAll(s, h, Wanted(p, c, rows)).None?
    decreases |rows| - n
  {
    hide SkipsTransfer, Ensured;
    if n < |rows| {
      WantedStep(p, c, s, h, rows, n);
      WantedPrefix(p, c, s, h, rows, n + 1);
    } else {
      assert rows[..n] == rows;
    }
  }

  lemma SameKind(p: Policy, c: Catalog, base: seq<Object>, now: seq<Object>, newOwner: Name, done: set<Kind>, kind: Kind)
    requires Moved(p, c, base, now, newOwner, done, {}) && kind !in done
    ensures |now| == |base| && Listed(now, kind, newOwner) == Listed(base, kind, newOwner)
  {
    ListedSame(now, base, kind, newOwner);
  }

  lemma NothingWanted(p: Policy, c: Catalog, s: Session, h: Held)
    ensures EnsuredAll(s, h, Wanted(p, c, [])) == Some(h) && Indices([]) == {}
  {
  }

  const ALL_KINDS := {Namespace, Relation, DataType, Routine}

  lemma NothingMoved(p: Policy, c: Catalog, base: seq<Object>, newOwner: Name)
    ensures Moved(p, c, base, base, newOwner, {}, {})
  {
  }

  lemma AllMoved(p: Policy, c: Catalog, base: seq<Object>, now: seq<Object>, newOwner: Name)
    requires Moved(p, c, base, now, newOwner, ALL_KINDS, {})
    ensures Owners(now) == Transferred(p, c, Owners(base), newOwner)
    ensures |now| == |base| && forall i :: 0 <= i < |now| ==> now[i].kind == base[i].kind
  {
  }

  /** Who owns each object then. */
  lemma EachMoved(p: Policy, c: Catalog, base: seq<Object>, now: seq<Object>, newOwner: Name)
    requires |now| == |base| && Owners(now) == Transferred(p, c, Owners(base), newOwner)
    ensures forall i :: 0 <= i < |now| ==>
              now[i].owner == if StaysOwner(p, c, base[i].owner) then base[i].owner else newOwner
  {
    hide Transferred, StaysOwner;
    forall i | 0 <= i < |now| ensures now[i].owner == if StaysOwner(p, c, base[i].owner) then base[i].owner else newOwner {
      HandedOver(p, c, Owners(base), newOwner, i);
      assert Owners(now)[i] == now[i].owner;
    }
  }

  /** The ensure calls of a transfer are those of its four listings in turn. */
  lemma FourParts(s: Session, h: Held, p: Policy, c: Catalog, base: seq<Object>, newOwner: Name)
    ensures var k := kind => Wanted(p, c, Listed(base, kind, newOwner));
            var h1 := EnsuredAll(s, h, k(Namespace));
            var h2 := if h1.None? then None else EnsuredAll(s, h1.value, k(Relation));
            var h3 := if h2.None? then None else EnsuredAll(s, h2.value, k(DataType));
            EnsuredAll(s, h, AllWanted(p, c, base, newOwner)) == if h3.None? then None else EnsuredAll(s, h3.value, k(Routine))
  {
    hide EnsuredAll, Wanted, Listed;
    var k := kind => Wanted(p, c, Listed(base, kind, newOwner));
    EnsuredAllJoins(s, h, k(Namespace), k(Relation));
    EnsuredAllJoins(s, h, k(Namespace) + k(Relation), k(DataType));
    EnsuredAllJoins(s, h, k(Namespace) + k(Relation) + k(DataType), k(Routine));
  }

  lemma MoveOne(p: Policy, c: Catalog, base: seq<Object>, now: seq<Object>, newOwner: Name,
                done: set<Kind>, more: set<nat>, row: OwnedRow)
    requires Moved(p, c, base, now, newOwner, done, more)
    requires row.index < |base| && base[row.index].owner == row.owner && base[row.index].kind !in done && row.index !in more
    ensures row.index < |now| && now[row.index] == base[row.index]
    ensures SkipsTransfer(p, c, row.owner) ==> Moved(p, c, base, now, newOwner, done, more + {row.index})
    ensures !SkipsTransfer(p, c, row.owner) ==>
              Moved(p, c, base, now[row.index := Object(now[row.index].kind, newOwner)], newOwner, done, more + {row.index})
  {
    hide SkipsTransfer;
  }

  lemma KindMoved(p: Policy, c: Catalog, base: seq<Object>, now: seq<Object>, newOwner: Name, done: set<Kind>, kind: Kind)
    requires Moved(p, c, base, now, newOwner, done, Indices(Listed(base, kind, newOwner)))
    ensures Moved(p, c, base, now, newOwner, done + {kind}, {})
  {
    ListedRows(base, kind, newOwner);
    hide SkipsTransfer, Listed;
    forall i | 0 <= i < |base| && i in Indices(Listed(base, kind, newOwner)) ensures base[i].kind == kind {
    }
  }

  // ----- the transaction and the manager -----

  /** A transaction on the clone. A statement may meet a fault; after any failed statement
      the server refuses the rest of the transaction. */
  class Transaction {
    const catalog: Catalog
    const user: Name
    const faults: nat -> bool
    var calls: nat
    var aborted: bool
    var grants: Grants
    var objects: seq<Object>
    var savedGrants: Grants
    var savedObjects: seq<Object>
    /** A statement that the server would have taken met a fault. */
    ghost var faulted: bool
    /** The server refused an ALTER ... OWNER because the user lacks USAGE on the owner. */
    ghost var refused: bool

    constructor (catalog: Catalog, user: Name, faults: nat -> bool, grants: Grants, objects: seq<Object>)
      ensures this.catalog == catalog && this.user == user && this.faults == faults
      ensures this.grants == grants && this.objects == objects
    {
      this.catalog, this.user, this.faults, this.grants, this.objects := catalog, user, faults, grants, objects;
      calls, aborted, savedGrants, savedObjects, faulted, refused := 0, false, grants, objects, false, false;
    }

    method Statement() returns (ok: bool)
      modifies `calls, `aborted, `faulted
      ensures ok ==> !old(aborted) && !aborted && faulted == old(faulted)
      ensures !ok ==> aborted && faulted
    {
      ok := !aborted && !faults(calls);
      calls := calls + 1;
      if !ok { aborted, faulted := true, true; }
    }

    method Begin() returns (ok: bool)
      modifies this
      ensures grants == savedGrants == old(grants) && objects == savedObjects == old(objects)
      ensures !refused && ok == !aborted && faulted == !ok
    {
      aborted, faulted, refused := false, false, false;
      savedGrants, savedObjects := grants, objects;
      ok := Statement();
    }

    method Rollback()
      modifies `grants, `objects
      ensures grants == savedGrants && objects == savedObjects
    {
      grants, objects := savedGrants, savedObjects;
    }

    method Grant(owner: Name, admin: Name) returns (ok: bool)
      modifies `calls, `aborted, `faulted, `grants
      ensures ok ==> Grantable(old(grants), admin, owner) && grants == old(grants)[(admin, owner) := true] &&
                     faulted == old(faulted)
      ensures !ok ==> grants == old(grants) && (faulted || !Grantable(old(grants), admin, owner))
    {
      ok := Statement();
      if ok && !Grantable(grants, admin, owner) {
        ok, aborted := false, true;
      } else if ok {
        grants := grants[(admin, owner) := true];
      }
    }

    method Revoke(owner: Name, admin: Name) returns (ok: bool)
      modifies `calls, `aborted, `faulted, `grants
      ensures ok ==> !old(aborted) && !aborted && grants == old(grants) - {(admin, owner)} && faulted == old(faulted)
      ensures !ok ==> grants == old(grants) && aborted && faulted
    {
      ok := Statement();
      if ok { grants := grants - {(admin, owner)}; }
    }

    method AlterOwner(s: Session, i: nat, newOwner: Name) returns (ok: bool)
      requires i < |objects|
      modifies `calls, `aborted, `faulted, `objects, `refused
      ensures ok ==> objects == old(objects)[i := Object(old(objects)[i].kind, newOwner)] && faulted == old(faulted)
      ensures !ok ==> objects == old(objects) && (faulted || refused)
      ensures refused ==> old(refused) || !MayUse(s, grants, old(objects)[i].owner)
    {
      ok := Statement();
      if ok && !MayUse(s, grants, objects[i].owner) {
        ok, aborted, refused := false, true, true;
      } else if ok {
        objects := objects[i := Object(objects[i].kind, newOwner)];
      }
    }
  }

  class MembershipManager {
    const exec: Transaction
    const admin: Name
    var resolved: set<Name>
    var temporary: seq<Name>

    constructor (exec: Transaction, admin: Name)
      ensures this.exec == exec && this.admin == admin && resolved == {} && temporary == []
    {
      this.exec, this.admin, resolved, temporary := exec, admin, {}, [];
    }

    function State(): Held
      reads this, exec`grants
    {
      Held(exec.grants, resolved, temporary)
    }

    function Who(): Session {
      Session(exec.user, admin, RoleOf(exec.catalog, exec.user).superuser)
    }

    /** Makes the owner usable, by a temporary grant if need be. */
    method Ensure(owner: Name) returns (err: Option<Error>)
      modifies this, exec`calls, exec`aborted, exec`faulted, exec`grants
      ensures err.None? ==> Ensured(Who(), old(State()), owner) == Some(State()) && exec.faulted == old(exec.faulted)
      ensures err.Some? ==> State() == old(State()) && (exec.faulted || Ensured(Who(), old(State()), owner).None?)
    {
      if owner in resolved { return None; }
      var ok := exec.Statement();
      if !ok || exec.user != admin { return Some(Unavailable); }
      if MayUse(Who(), exec.grants, owner) {
        resolved := resolved + {owner};
        return None;
      }
      if owner in Roles(exec.grants, false, exec.user) { return Some(Unavailable); }
      if !ValidCatalogName(owner) || !ValidIdentifier(admin) { return Some(InvalidIdentifier); }
      ok := exec.Grant(owner, admin);
      if !ok { return Some(Unavailable); }
      resolved := resolved + {owner};
      temporary := temporary + [owner];
      return None;
    }

    /** Revokes the temporary grants, last one first. Success restores the start grants; no
        grant of the start is ever revoked. */
    method Release(ghost start: Grants) returns (err: Option<Error>)
      requires Balanced(Who(), start, State())
      modifies exec`calls, exec`aborted, exec`faulted, exec`grants
      ensures err.None? ==> exec.grants == start && exec.faulted == old(exec.faulted)
      ensures err.Some? ==> exec.faulted
      ensures forall e :: e in start ==> e in exec.grants && exec.grants[e] == start[e]
    {
      var failed := false;
      assert temporary[..|temporary|] == temporary;
      TemporaryKeys(start, admin, temporary);
      for i := |temporary| downto 0
        invariant !failed ==> exec.grants == WithTemporary(start, admin, temporary[..i]) && exec.faulted == old(exec.faulted)
        invariant failed ==> exec.aborted && exec.faulted
        invariant forall e :: e in start ==> e in exec.grants && exec.grants[e] == start[e]
      {
        assert temporary[i] in temporary;
        if !ValidCatalogName(temporary[i]) || !ValidIdentifier(admin) {
          failed := true;
          continue;
        }
        RevokeLast(start, admin, temporary, i);
        var ok := exec.Revoke(temporary[i], admin);
        if !ok { failed := true; }
      }
      if failed { return Some(Unavailable); }
      return None;
    }

    /** transferCloneNamespaces, -Relations, -Types or -Routines. */
    method TransferKind(kind: Kind, newOwner: Name, p: Policy,
                        ghost start: Grants, ghost base: seq<Object>, ghost done: set<Kind>) returns (err: Option<Error>)
      requires Balanced(Who(), start, State()) && kind !in done
      requires Moved(p, exec.catalog, base, exec.objects, newOwner, done, {}) && !exec.refused
      modifies this, exec`calls, exec`aborted, exec`faulted, exec`grants, exec`objects, exec`refused
      ensures !exec.refused
      ensures var all := EnsuredAll(Who(), old(State()), Wanted(p, exec.catalog, Listed(base, kind, newOwner)));
              (err.None? ==> all == Some(State()) && exec.faulted == old(exec.faulted)) &&
              (err.Some? ==> exec.faulted || all.None?)
      ensures err.None? ==> Balanced(Who(), start, State()) && Moved(p, exec.catalog, base, exec.objects, newOwner, done + {kind}, {})
    {
      hide Ensured, Balanced, Moved, MayUse, SkipsTransfer, Listed, Wanted, EnsuredAll;
      var ok := exec.Statement();
      if !ok { return Some(Unavailable); }
      var rows := Listed(exec.objects, kind, newOwner);
      SameKind(p, exec.catalog, base, exec.objects, newOwner, done, kind);
      ListedRows(base, kind, newOwner);
      ghost var h0 := State();
      NothingWanted(p, exec.catalog, Who(), h0);
      for i := 0 to |rows|
        invariant Balanced(Who(), start, State()) && !exec.refused && exec.faulted == old(exec.faulted)
        invariant EnsuredAll(Who(), h0, Wanted(p, exec.catalog, rows[..i])) == Some(State())
        invariant Moved(p, exec.catalog, base, exec.objects, newOwner, done, Indices(rows[..i]))
      {
        var row := rows[i];
        assert row in rows;
        WantedStep(p, exec.catalog, Who(), h0, rows, i);
        MoveOne(p, exec.catalog, base, exec.objects, newOwner, done, Indices(rows[..i]), row);
        if SkipsTransfer(p, exec.catalog, row.owner) { continue; }
        ghost var before := State();
        err := Ensure(row.owner);
        if err.Some? {
          if Ensured(Who(), before, row.owner).None? {
            WantedPrefix(p, exec.catalog, Who(), h0, rows, i + 1);
          }
          return;
        }
        EnsureKeepsBalance(Who(), start, before, row.owner);
        ok := exec.AlterOwner(Who(), row.index, newOwner);
        if !ok { return Some(Unavailable); }
      }
      assert rows[..|rows|] == rows;
      KindMoved(p, exec.catalog, base, exec.objects, newOwner, done, kind);
      return None;
    }

    /** The four listings in turn, then the release. */
    method TransferAll(newOwner: Name, p: Policy, ghost start: Grants, ghost base: seq<Object>) returns (err: Option<Error>)
      requires State() == Held(start, {}, []) && exec.objects == base && !exec.refused
      modifies this, exec`calls, exec`aborted, exec`faulted, exec`grants, exec`objects, exec`refused
      ensures !exec.refused
      ensures var all := EnsuredAll(Who(), Held(start, {}, []), AllWanted(p, exec.catalog, base, newOwner));
              (err.None? ==> all.Some? && exec.faulted == old(exec.faulted)) && (err.Some? ==> exec.faulted || all.None?)
      ensures err.None? ==> exec.grants == start && Moved(p, exec.catalog, base, exec.objects, newOwner, ALL_KINDS, {})
    {
      hide Balanced, Moved, EnsuredAll, Wanted, Listed;
      StartIsBalanced(Who(), start);
      NothingMoved(p, exec.catalog, base, newOwner);
      FourParts(Who(), Held(start, {}, []), p, exec.catalog, base, newOwner);
      err := TransferKind(Namespace, newOwner, p, start, base, {});
      if err.Some? { return; }
      err := TransferKind(Relation, newOwner, p, start, base, {} + {Namespace});
      if err.Some? { return; }
      err := TransferKind(DataType, newOwner, p, start, base, {} + {Namespace} + {Relation});
      if err.Some? { return; }
      err := TransferKind(Routine, newOwner, p, start, base, {} + {Namespace} + {Relation} + {DataType});
      if err.Some? { return; }
      assert {} + {Namespace} + {Relation} + {DataType} + {Routine} == ALL_KINDS;
      err := Release(start);
    }
  }

  /** TransferCloneOwnership. It either hands over every object except those of superusers
      and protected roles, or changes nothing; either way the role grants end exactly as
      they began. It succeeds exactly when the names are valid, no statement meets a fault
      and every ensure call is granted, and no ALTER is ever refused for want of USAGE. */
  method TransferCloneOwnership(tx: Transaction, database: Name, newOwner: Name, admin: Name, p: Policy)
    returns (err: Option<Error>)
    modifies tx
    ensures tx.grants == old(tx.grants)
    ensures err.None? ==> Owners(tx.objects) == Transferred(p, tx.catalog, old(Owners(tx.objects)), newOwner)
    ensures err.None? ==> |tx.objects| == |old(tx.objects)| &&
                          forall i :: 0 <= i < |tx.objects| ==> tx.objects[i].kind == old(tx.objects)[i].kind
    ensures err.None? ==>
              forall i :: 0 <= i < |tx.objects| ==>
                tx.objects[i].owner == if StaysOwner(p, tx.catalog, old(tx.objects)[i].owner) then old(tx.objects)[i].owner else newOwner
    ensures err.Some? ==> tx.objects == old(tx.objects)
    ensures !ValidIdentifier(database) || !ValidIdentifier(newOwner) ==> err == Some(InvalidIdentifier)
    ensures ValidIdentifier(database) && ValidIdentifier(newOwner) ==>
              !tx.refused &&
              (err.None? <==> !tx.faulted && EnsuredAll(Session(tx.user, admin, RoleOf(tx.catalog, tx.user).superuser),
                                                        Held(old(tx.grants), {}, []),
                                                        AllWanted(p, tx.catalog, old(tx.objects), newOwner)).Some?)
  {
    hide Moved, EnsuredAll, AllWanted;
    if !ValidIdentifier(database) || !ValidIdentifier(newOwner) { return Some(InvalidIdentifier); }
    var ok := tx.Begin();
    if !ok { return Some(Unavailable); }
    var memberships := new MembershipManager(tx, admin);
    err := memberships.TransferAll(newOwner, p, tx.grants, tx.objects);
    if err.None? {
      ok := tx.Statement();
      if !ok { err := Some(Unavailable); }
    }
    if err.Some? {
      tx.Rollback();
    } else {
      AllMoved(p, tx.catalog, tx.savedObjects, tx.objects, newOwner);
      EachMoved(p, tx.catalog, tx.savedObjects, tx.objects, newOwner);
    }
  }
}
