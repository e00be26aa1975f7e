/** The JWT role-claim conversion of SecurityConfig: the realm roles of an access token
    become granted authorities, with the three default Keycloak roles skipped. */
module Security {
  import opened Wrappers

  /** SimpleGrantedAuthority: a granted authority is its name. */
  datatype Authority = SimpleGrantedAuthority(authority: string)

  const RolePrefix: string := "ROLE_"
  const RolesKey: string := "roles"

  /** Roles every realm user holds; they never become authorities. */
  predicate IsDefaultRole(role: string) {
    role == "offline_access" || role == "uma_authorization" || role == "default-roles-sauda-realm"
  }

  /** The authority a kept role becomes. */
  function AuthorityOf(role: string): Authority {
    SimpleGrantedAuthority(RolePrefix + role)
  }

  /** The roles list inside the realm_access claim: empty when the claim is absent, has no
      "roles" entry, or that entry is null. */
  function RolesClaim(realmAccess: Option<map<string, Option<seq<string>>>>): (roles: seq<string>)
    ensures realmAccess.None? ==> roles == []
    ensures realmAccess.Some? && RolesKey !in realmAccess.value ==> roles == []
    ensures realmAccess.Some? && RolesKey in realmAccess.value && realmAccess.value[RolesKey].None? ==> roles == []
    ensures realmAccess.Some? && RolesKey in realmAccess.value && realmAccess.value[RolesKey].Some? ==>
      roles == realmAccess.value[RolesKey].value
  {
    if realmAccess.Some? && RolesKey in realmAccess.value && realmAccess.value[RolesKey].Some? then
      realmAccess.value[RolesKey].value
    else
      []
  }

  /** The authorities the loop has appended after reading roles, in reading order. */
  function Granted(roles: seq<string>): seq<Authority>
  {
    if |roles| == 0 then []
    else
      var last := roles[|roles| - 1];
      Granted(roles[..|roles| - 1]) + (if IsDefaultRole(last) then [] else [AuthorityOf(last)])
  }

  /** How many of the roles are default roles, counted through the multiset of roles. */
  function DefaultCount(roles: seq<string>): nat {
    multiset(roles)["offline_access"] + multiset(roles)["uma_authorization"] + multiset(roles)["default-roles-sauda-realm"]
  }

  /** extractAuthorities */
  method ExtractAuthorities(realmAccess: Option<map<string, Option<seq<string>>>>) returns (authorities: seq<Authority>)
    ensures authorities == Granted(RolesClaim(realmAccess))
  {
    authorities := [];
    if realmAccess.Some? && RolesKey in realmAccess.value {
      var roles := realmAccess.value[RolesKey];
      if roles.Some? {
        var i := 0;
        while i < |roles.value|
          invariant 0 <= i <= |roles.value|
          invariant authorities == Granted(roles.value[..i])
        {
          var role := roles.value[i];
          assert roles.value[..i + 1][..i] == roles.value[..i];
          if !IsDefaultRole(role) {
            authorities := authorities + [AuthorityOf(role)];
          }
          i := i + 1;
        }
        assert roles.value[..i] == roles.value;
      }
    }
  }

  // ---------------------------------------------------------------------------
  // What the conversion promises
  // ---------------------------------------------------------------------------

  /** Reading a + b grants what reading a grants, followed by what reading b grants. */
  lemma {:induction false} GrantedAppend(a: seq<string>, b: seq<string>)
    ensures Granted(a + b) == Granted(a) + Granted(b)
    decreases |b|
  {
    if |b| == 0 {
      assert a + b == a;
    } else {
      var ab := a + b;
      var b' := b[..|b| - 1];
      assert ab[..|ab| - 1] == a + b';
      assert ab[|ab| - 1] == b[|b| - 1];
      GrantedAppend(a, b');
    }
  }

  /** With no default role among them, every role becomes one authority, in order and
      with duplicates kept. */
  lemma {:induction false} GrantedWithoutDefaults(roles: seq<string>)
    requires forall i :: 0 <= i < |roles| ==> !IsDefaultRole(roles[i])
    ensures |Granted(roles)| == |roles|
    ensures forall i :: 0 <= i < |roles| ==> Granted(roles)[i] == AuthorityOf(roles[i])
  {
    if |roles| > 0 {
      var init := roles[..|roles| - 1];
      GrantedWithoutDefaults(init);
    }
  }

  /** One authority per non-default role: the length is the number of roles less the
      number of default roles. */
  lemma {:induction false} GrantedLength(roles: seq<string>)
    ensures |Granted(roles)| == |roles| - DefaultCount(roles)
  {
    if |roles| > 0 {
      var init, last := roles[..|roles| - 1], roles[|roles| - 1];
      assert roles == init + [last];
      assert multiset(roles) == multiset(init) + multiset{last};
      GrantedLength(init);
    }
  }

  /** The prefix is injective: different roles give different authorities. */
  lemma AuthorityOfInjective(x: string, y: string)
    ensures AuthorityOf(x) == AuthorityOf(y) ==> x == y
  {
    if AuthorityOf(x) == AuthorityOf(y) {
      assert x == (RolePrefix + x)[|RolePrefix|..];
      assert y == (RolePrefix + y)[|RolePrefix|..];
    }
  }

  /** An authority is granted exactly when it is the prefixed form of a non-default role
      among the roles. */
  lemma {:induction false} GrantedMembership(roles: seq<string>, a: Authority)
    ensures a in Granted(roles) <==> exists i :: 0 <= i < |roles| && !IsDefaultRole(roles[i]) && a == AuthorityOf(roles[i])
  {
    if |roles| > 0 {
      var init, last := roles[..|roles| - 1], roles[|roles| - 1];
      GrantedMembership(init, a);
      if a in Granted(roles) && a !in Granted(init) {
        assert !IsDefaultRole(last) && a == AuthorityOf(last);
        assert roles[|roles| - 1] == last;
      }
      if exists i :: 0 <= i < |roles| && !IsDefaultRole(roles[i]) && a == AuthorityOf(roles[i]) {
        var i :| 0 <= i < |roles| && !IsDefaultRole(roles[i]) && a == AuthorityOf(roles[i]);
        if i < |init| {
          assert init[i] == roles[i];
        } else {
          assert roles[i] == last;
        }
      }
    }
  }

  /** A default role never yields an authority, whatever else the claim holds. */
  lemma DefaultRoleNeverGranted(roles: seq<string>, role: string)
    requires IsDefaultRole(role)
    ensures AuthorityOf(role) !in Granted(roles)
  {
    GrantedMembership(roles, AuthorityOf(role));
    forall i | 0 <= i < |roles| && !IsDefaultRole(roles[i])
      ensures AuthorityOf(role) != AuthorityOf(roles[i])
    {
      AuthorityOfInjective(role, roles[i]);
    }
  }

  /** A token from the realm: the two default roles are dropped, the rest keep their order;
      a token with a null roles entry or no realm_access claim grants nothing. */
  method ConversionScenario() {
    var claim := map["roles" := Some(["offline_access", "MANAGER", "uma_authorization", "CASHIER", "MANAGER"])];
    var authorities := ExtractAuthorities(Some(claim));
    var roles := ["offline_access", "MANAGER", "uma_authorization", "CASHIER", "MANAGER"];
    assert roles == ["offline_access"] + ["MANAGER"] + ["uma_authorization"] + ["CASHIER"] + ["MANAGER"];
    assert RolesClaim(Some(claim)) == roles;
    GrantedAppend(["offline_access"] + ["MANAGER"] + ["uma_authorization"] + ["CASHIER"], ["MANAGER"]);
    GrantedAppend(["offline_access"] + ["MANAGER"] + ["uma_authorization"], ["CASHIER"]);
    GrantedAppend(["offline_access"] + ["MANAGER"], ["uma_authorization"]);
    GrantedAppend(["offline_access"], ["MANAGER"]);
    assert authorities == [AuthorityOf("MANAGER"), AuthorityOf("CASHIER"), AuthorityOf("MANAGER")];
    var nullRoles := ExtractAuthorities(Some(map["roles" := None]));
    assert nullRoles == [];
    var noRolesKey := ExtractAuthorities(Some(map["resource_access" := Some(["ADMIN"])]));
    assert noRolesKey == [];
    var noClaim := ExtractAuthorities(None);
    assert noClaim == [];
  }
}
