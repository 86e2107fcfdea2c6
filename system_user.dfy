/**
 * The system user entity: its defaults, the role set it updates in place, the permissions it
 * collects from its roles and its group's roles, the comma-terminated list of role codes, and
 * the super-administrator test.
 */
module SystemUser {
  import opened Wrappers

  /** Login name of the super administrator. */
  const Admin := "admin"

  /** A user's sex; M is the default. */
  datatype Sex = M | F

  /** A user's status; ENABLE is the default. */
  datatype Status = ENABLE | DISABLE

  /** A role: its code and the permissions it grants (Role.getAllPermissons). */
  datatype Role = Role(id: int, code: string, permissions: set<string>)

  /** An organisational group, reduced to the roles it grants to its members. */
  datatype Group = Group(roles: set<Role>)

  /** Every permission that some role of `rs` grants. */
  function PermissionsOf(rs: set<Role>): set<string> {
    set r, p | r in rs && p in r.permissions :: p
  }

  /** A role added to a set adds exactly its own permissions to what the set grants. */
  lemma PermissionsOfAdd(rs: set<Role>, r: Role)
    ensures PermissionsOf(rs + {r}) == PermissionsOf(rs) + r.permissions
  {
    forall p | p in r.permissions ensures p in PermissionsOf(rs + {r}) {
      assert r in rs + {r};
    }
  }

  /** A set of no roles grants nothing. */
  lemma PermissionsOfNone()
    ensures PermissionsOf({}) == {}
  {
  }

  /** `order` lists every role of `s` exactly once: an iteration order of the set. */
  ghost predicate Enumerates(order: seq<Role>, s: set<Role>) {
    (forall i, j :: 0 <= i < j < |order| ==> order[i] != order[j])
    && (forall r :: r in s <==> r in order)
  }

  /** The codes of `order`, each followed by a comma, in order. */
  function Joined(order: seq<Role>): string
    decreases |order|
  {
    if order == [] then ""
    else Joined(order[..|order| - 1]) + order[|order| - 1].code + ","
  }

  /** The sum over `order` of the code length plus one for the comma. */
  function CodesLength(order: seq<Role>): nat
    decreases |order|
  {
    if order == [] then 0 else |order[0].code| + 1 + CodesLength(order[1..])
  }

  /** The joined list is as long as the codes and their commas. */
  lemma {:induction false} JoinedLength(order: seq<Role>)
    ensures |Joined(order)| == CodesLength(order)
    decreases |order|
  {
    if order != [] {
      var init := order[..|order| - 1];
      JoinedLength(init);
      CodesLengthAppend(init, [order[|order| - 1]]);
      assert init + [order[|order| - 1]] == order;
    }
  }

  /** CodesLength adds up over concatenation. */
  lemma {:induction false} CodesLengthAppend(a: seq<Role>, b: seq<Role>)
    ensures CodesLength(a + b) == CodesLength(a) + CodesLength(b)
    decreases |a|
  {
    if a == [] {
      assert a + b == b;
    } else {
      CodesLengthAppend(a[1..], b);
      assert (a + b)[0] == a[0];
      assert (a + b)[1..] == a[1..] + b;
    }
  }

  /** Taking the role at index k out of a list takes its code length and comma out of the sum. */
  lemma CodesLengthRemove(b: seq<Role>, k: nat)
    requires k < |b|
    ensures CodesLength(b) == |b[k].code| + 1 + CodesLength(b[..k] + b[k + 1..])
  {
    assert b == b[..k] + ([b[k]] + b[k + 1..]);
    CodesLengthAppend(b[..k], [b[k]] + b[k + 1..]);
    CodesLengthAppend(b[..k], b[k + 1..]);
    assert ([b[k]] + b[k + 1..])[1..] == b[k + 1..];
  }

  /** Taking the element at index k out of a list takes one copy of it out of its multiset. */
  lemma MultisetRemove(b: seq<Role>, k: nat)
    requires k < |b|
    ensures multiset(b[..k] + b[k + 1..]) == multiset(b) - multiset{b[k]}
  {
    assert b == b[..k] + [b[k]] + b[k + 1..];
  }

  /** Equal multisets stay equal when the first element of one and a copy of it in the other go. */
  lemma SameRest(a: seq<Role>, b: seq<Role>, k: nat, rest: seq<Role>)
    requires a != [] && k < |b| && b[k] == a[0] && multiset(a) == multiset(b)
    requires rest == b[..k] + b[k + 1..]
    ensures multiset(a[1..]) == multiset(rest)
  {
    MultisetRemove(b, k);
    assert a == [a[0]] + a[1..];
  }

  /** CodesLength depends only on which roles are listed how often, not on their order. */
  lemma {:induction false} CodesLengthPermutation(a: seq<Role>, b: seq<Role>)
    requires multiset(a) == multiset(b)
    ensures CodesLength(a) == CodesLength(b)
    decreases |a|
  {
    if a != [] {
      assert a[0] in multiset(b);
      var k :| 0 <= k < |b| && b[k] == a[0];
      var rest := b[..k] + b[k + 1..];
      SameRest(a, b, k, rest);
      CodesLengthPermutation(a[1..], rest);
      CodesLengthRemove(b, k);
    }
  }

  /** A list without repetitions holds each of its elements once. */
  lemma {:induction false} DistinctMultiset(order: seq<Role>)
    requires forall i, j :: 0 <= i < j < |order| ==> order[i] != order[j]
    ensures forall x :: multiset(order)[x] == if x in order then 1 else 0
    decreases |order|
  {
    if order != [] {
      var init := order[..|order| - 1];
      DistinctMultiset(init);
      assert order == init + [order[|order| - 1]];
    }
  }

  /** Two iteration orders of one set list the same roles. */
  lemma EnumerationsAgree(a: seq<Role>, b: seq<Role>, s: set<Role>)
    requires Enumerates(a, s) && Enumerates(b, s)
    ensures multiset(a) == multiset(b)
  {
    DistinctMultiset(a);
    DistinctMultiset(b);
    assert forall x :: multiset(a)[x] == multiset(b)[x];
  }

  /**
   * One loop of getAllPermission: adds the permissions of every role of `rs`, in the set's
   * iteration order, to `perms`.
   */
  method AddAllPermissions(perms: set<string>, rs: set<Role>) returns (r: set<string>)
    ensures r == perms + PermissionsOf(rs)
  {
    r := perms;
    var rest := rs;
    while rest != {}
      invariant rest <= rs
      invariant r == perms + PermissionsOf(rs - rest)
      decreases |rest|
    {
      var role :| role in rest;
      PermissionsOfAdd(rs - rest, role);
      assert (rs - rest) + {role} == rs - (rest - {role});
      r := r + role.permissions;
      rest := rest - {role};
    }
    assert rs - rest == rs;
  }

  /** Removing a role that was just added to a set without it gives back the original set. */
  lemma RemoveUndoesAdd(rs: set<Role>, role: Role)
    requires role !in rs
    ensures (rs + {role}) - {role} == rs
  {
    assert forall r :: r in (rs + {role}) - {role} <==> r in rs;
  }

  /** A user, with the fields that its role and permission logic reads and updates. */
  class User {
    var loginName: Option<string>
    var sex: Sex
    var status: Status
    var roles: Option<set<Role>>
    var group: Option<Group>

    /** A new user: sex M, status ENABLE, an empty role set, no group and no login name. */
    constructor ()
      ensures loginName == None && sex == M && status == ENABLE
      ensures roles == Some({}) && group == None
    {
      loginName := None;
      sex := M;
      status := ENABLE;
      roles := Some({});
      group := None;
    }

    /**
     * isSuperAdmin: ADMIN.equals(loginName), false for a null login name, and otherwise a
     * character-by-character comparison with "admin", case included.
     */
    function IsSuperAdmin(): (r: bool)
      reads this
      ensures loginName.None? ==> !r
      ensures r <==> (loginName.Some? && |loginName.value| == |Admin|
                      && forall i :: 0 <= i < |Admin| ==> loginName.value[i] == Admin[i])
    {
      loginName.Some? && loginName.value == Admin
    }

    /** setLoginName: decides isSuperAdmin and changes no other field. */
    method SetLoginName(name: Option<string>)
      modifies this`loginName
      ensures loginName == name
      ensures IsSuperAdmin() <==> name == Some(Admin)
    {
      loginName := name;
    }

    /** setRoles: replaces the role set, which may be null. */
    method SetRoles(rs: Option<set<Role>>)
      modifies this`roles
      ensures roles == rs
    {
      roles := rs;
    }

    /** setGroup: replaces the group, which may be null. */
    method SetGroup(g: Option<Group>)
      modifies this`group
      ensures group == g
    {
      group := g;
    }

    /**
     * addRole: the role set becomes the old set plus the role and is returned; adding a role
     * the set already holds changes nothing.
     */
    method AddRole(role: Role) returns (rs: set<Role>)
      requires roles.Some?
      modifies this`roles
      ensures roles == Some(old(roles.value) + {role}) && rs == roles.value
      ensures role in old(roles.value) ==> roles == old(roles)
      ensures |rs| == if role in old(roles.value) then |old(roles.value)| else |old(roles.value)| + 1
    {
      if role in roles.value {
        assert roles.value + {role} == roles.value;
      }
      roles := Some(roles.value + {role});
      rs := roles.value;
    }

    /**
     * removeRole: the role set becomes the old set without the role and is returned; removing
     * a role the set does not hold changes nothing.
     */
    method RemoveRole(role: Role) returns (rs: set<Role>)
      requires roles.Some?
      modifies this`roles
      ensures roles == Some(old(roles.value) - {role}) && rs == roles.value
      ensures role !in old(roles.value) ==> roles == old(roles)
      ensures |rs| == if role in old(roles.value) then |old(roles.value)| - 1 else |old(roles.value)|
    {
      if role !in roles.value {
        assert roles.value - {role} == roles.value;
      }
      roles := Some(roles.value - {role});
      rs := roles.value;
    }

    /**
     * getAllPermission: every permission granted by a role of the user or, when the user has a
     * group, by a role of the group; nothing when there are neither.
     */
    method AllPermissions() returns (perms: set<string>)
      requires roles.Some?
      ensures perms == PermissionsOf(roles.value)
        + (if group.Some? then PermissionsOf(group.value.roles) else {})
      ensures roles.value == {} && group.None? ==> perms == {}
    {
      perms := {};
      perms := AddAllPermissions(perms, roles.value);
      if group.Some? {
        perms := AddAllPermissions(perms, group.value.roles);
      }
      PermissionsOfNone();
    }

    /**
     * getRoleNames: the code of every role followed by a comma, in the set's iteration order;
     * empty for a null or empty role set. Its length is the same whatever that order is.
     */
    method RoleNames() returns (names: string)
      ensures roles.None? ==> names == ""
      ensures roles.Some? ==> exists order :: Enumerates(order, roles.value) && names == Joined(order)
      ensures roles.Some? ==>
        forall order :: Enumerates(order, roles.value) ==> |names| == CodesLength(order)
    {
      names := "";
      if roles.Some? {
        var rest := roles.value;
        ghost var order: seq<Role> := [];
        while rest != {}
          invariant rest <= roles.value
          invariant Enumerates(order, roles.value - rest)
          invariant names == Joined(order)
          decreases |rest|
        {
          var role :| role in rest;
          assert (order + [role])[..|order|] == order;
          names := names + role.code + ",";
          order := order + [role];
          rest := rest - {role};
        }
        assert roles.value - rest == roles.value;
        assert Enumerates(order, roles.value) && names == Joined(order);
        JoinedLength(order);
        forall other | Enumerates(other, roles.value) ensures |names| == CodesLength(other) {
          EnumerationsAgree(order, other, roles.value);
          CodesLengthPermutation(order, other);
        }
      }
    }
  }
}
