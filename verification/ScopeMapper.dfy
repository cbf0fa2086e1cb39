/** OAuth scopes and DeepSecure permissions: mapping, and the order-keeping duplicate-free merge. */
module ScopeMapper {
  import opened Text

  const MCP_SCOPE_PREFIX := "mcp:"
  const BROAD_OAUTH_SCOPE := "mcp:tools"
  const WILDCARD_PERMISSION := "*:*"

  const CATEGORY_SCOPE_MAP: map<string, seq<string>> := map[
    "mcp_tools" := ["mcp:tools:list", "mcp:tools:call"],
    "mcp_resources" := ["mcp:resources:list", "mcp:resources:read"],
    "mcp_prompts" := ["mcp:prompts:list", "mcp:prompts:get"]
  ]

  const OIDC_STANDARD_SCOPES: set<string> := {"openid", "profile", "email", "address", "phone", "offline_access"}

  function PermissionToScope(permission: string): string {
    if permission == WILDCARD_PERMISSION then BROAD_OAUTH_SCOPE
    else if StartsWith(permission, MCP_SCOPE_PREFIX) then permission
    else MCP_SCOPE_PREFIX + permission
  }

  function ScopeToPermission(scope: string): string {
    if scope == BROAD_OAUTH_SCOPE then WILDCARD_PERMISSION
    else if scope in CATEGORY_SCOPE_MAP then scope
    else if StartsWith(scope, MCP_SCOPE_PREFIX) then scope[|MCP_SCOPE_PREFIX|..]
    else scope
  }

  /** What the two directions say, in plain text. */
  lemma MappedText(name: string)
    ensures PermissionToScope("*:*") == "mcp:tools" && ScopeToPermission("mcp:tools") == "*:*"
    ensures !StartsWith(name, "mcp:") && name != "*:*" ==> PermissionToScope(name) == "mcp:" + name
    ensures PermissionToScope("mcp:" + name) == "mcp:" + name
    ensures name != "tools" ==> ScopeToPermission("mcp:" + name) == name
    ensures !StartsWith(name, "mcp:") ==> ScopeToPermission(name) == name
  {
    assert "*:*"[0] != 'm' && "mcp:tools" == "mcp:" + "tools";
    assert ("mcp:" + name)[..4] == "mcp:" && ("mcp:" + name)[4..] == name;
    assert "mcp:tools"[4..] == "tools";
    assert "mcp_tools"[3] == "mcp_resources"[3] == "mcp_prompts"[3] == '_' && ("mcp:" + name)[3] == ':';
  }

  // ----- the merge -----

  /** `existing` followed by the members of `additional` not seen before, in order. */
  function Merge(existing: seq<string>, additional: seq<string>): seq<string>
    decreases |additional|
  {
    if additional == [] then existing
    else Merge(if additional[0] in existing then existing else existing + [additional[0]], additional[1..])
  }

  /** First occurrences only. */
  function Dedup(s: seq<string>): seq<string> {
    Merge([], s)
  }

  ghost predicate NoDup(s: seq<string>) {
    forall i, j :: 0 <= i < j < |s| ==> s[i] != s[j]
  }

  lemma {:induction false} MergeMembers(a: seq<string>, b: seq<string>)
    ensures a <= Merge(a, b)
    ensures forall x :: x in Merge(a, b) <==> x in a || x in b
    ensures NoDup(a) ==> NoDup(Merge(a, b))
    decreases |b|
  {
    if b != [] {
      MergeMembers(if b[0] in a then a else a + [b[0]], b[1..]);
      assert forall x :: x in b <==> x == b[0] || x in b[1..];
    }
  }

  lemma {:induction false} MergeAppend(a: seq<string>, b: seq<string>, c: seq<string>)
    ensures Merge(a, b + c) == Merge(Merge(a, b), c)
    decreases |b|
  {
    if b == [] {
      assert b + c == c;
    } else {
      assert (b + c)[1..] == b[1..] + c;
      MergeAppend(if b[0] in a then a else a + [b[0]], b[1..], c);
    }
  }

  /** New members come after the old ones, in their own order. */
  lemma {:induction false} MergeNew(a: seq<string>, b: seq<string>)
    requires NoDup(b) && forall x :: x in b ==> x !in a
    ensures Merge(a, b) == a + b
    decreases |b|
  {
    if b != [] {
      assert b[0] in b && b == [b[0]] + b[1..];
      forall x | x in b[1..] ensures x !in a + [b[0]] {
        var k :| 0 <= k < |b[1..]| && b[1..][k] == x;
        assert b[k + 1] == x && x in b;
      }
      MergeNew(a + [b[0]], b[1..]);
      assert a + [b[0]] + b[1..] == a + b;
    }
  }

  lemma {:induction false} MergeKnown(a: seq<string>, b: seq<string>)
    requires forall x :: x in b ==> x in a
    ensures Merge(a, b) == a
    decreases |b|
  {
    if b != [] {
      assert b[0] in b;
      MergeKnown(a, b[1..]);
    }
  }

  /** Merging a merge is merging in turn: the merge is associative, duplicates in the arguments included. */
  lemma {:induction false} MergeAssociative(a: seq<string>, b: seq<string>, c: seq<string>)
    ensures Merge(a, Merge(b, c)) == Merge(Merge(a, b), c)
    decreases |c|
  {
    if c != [] {
      var x := c[0];
      var b' := if x in b then b else b + [x];
      MergeAssociative(a, b', c[1..]);
      MergeMembers(a, b);
      if x !in b {
        MergeAppend(a, b, [x]);
        assert [x][1..] == [];
      }
    }
  }

  // ----- the list conversions -----

  function ScopesOf(permissions: seq<string>): seq<string> {
    if permissions == [] then [] else [PermissionToScope(permissions[0])] + ScopesOf(permissions[1..])
  }

  /** What one scope contributes: nothing for OIDC scopes and scopes without the prefix. */
  function Contribution(scope: string): seq<string> {
    if scope in OIDC_STANDARD_SCOPES then []
    else if scope in CATEGORY_SCOPE_MAP then CATEGORY_SCOPE_MAP[scope]
    else if StartsWith(scope, MCP_SCOPE_PREFIX) then [ScopeToPermission(scope)]
    else []
  }

  /** What each scope stands for, in plain text. */
  lemma ContributionText(name: string)
    ensures Contribution("openid") == Contribution("profile") == Contribution("email") == Contribution("address") == []
    ensures Contribution("phone") == Contribution("offline_access") == []
    ensures Contribution("mcp_tools") == ["mcp:tools:list", "mcp:tools:call"]
    ensures Contribution("mcp_resources") == ["mcp:resources:list", "mcp:resources:read"]
    ensures Contribution("mcp_prompts") == ["mcp:prompts:list", "mcp:prompts:get"]
    ensures Contribution("mcp:tools") == ["*:*"]
    ensures name != "tools" ==> Contribution("mcp:" + name) == [name]
    ensures !StartsWith(name, "mcp:") && name !in ["mcp_tools", "mcp_resources", "mcp_prompts"] ==> Contribution(name) == []
  {
    MappedText(name);
    assert |"mcp_tools"| == 9 && |"mcp_resources"| == 13 && |"mcp_prompts"| == 11;
    assert "openid"[0] != 'm' && "profile"[0] != 'm' && "email"[0] != 'm' && "address"[0] != 'm' && "phone"[0] != 'm'
        && "offline_access"[0] != 'm';
    assert "mcp_tools"[0] == "mcp_resources"[0] == "mcp_prompts"[0] == 'm' && ("mcp:" + name)[0] == 'm';
    assert "mcp_tools"[3] == "mcp_resources"[3] == "mcp_prompts"[3] == '_' && ("mcp:" + name)[3] == ':' && "mcp:tools"[3] == ':';
    assert ("mcp:" + name)[..4] == "mcp:";
  }

  function PermissionsOf(scopes: seq<string>): seq<string> {
    if scopes == [] then [] else Contribution(scopes[0]) + PermissionsOf(scopes[1..])
  }

  function ScopesFor(permissions: seq<string>): seq<string> {
    Dedup(ScopesOf(permissions))
  }

  function PermissionsFor(scopes: seq<string>): seq<string> {
    Dedup(PermissionsOf(scopes))
  }

  lemma {:induction false} PermissionsOfAppend(a: seq<string>, b: seq<string>)
    ensures PermissionsOf(a + b) == PermissionsOf(a) + PermissionsOf(b)
    decreases |a|
  {
    hide Contribution;
    if a == [] {
      assert a + b == b;
    } else {
      assert (a + b)[1..] == a[1..] + b;
      PermissionsOfAppend(a[1..], b);
    }
  }

  lemma {:induction false} ContributionWithin(scopes: seq<string>, scope: string)
    requires scope in scopes
    ensures forall p :: p in Contribution(scope) ==> p in PermissionsOf(scopes)
    decreases |scopes|
  {
    hide Contribution;
    if scopes[0] != scope {
      ContributionWithin(scopes[1..], scope);
    }
  }

  /** Dropping repeated scopes first changes no permission list. */
  lemma {:induction false} MergeThenExpand(x: seq<string>, a: seq<string>, b: seq<string>)
    ensures Merge(x, PermissionsOf(Merge(a, b))) == Merge(x, PermissionsOf(a + b))
    decreases |b|
  {
    hide Contribution, PermissionsOf;
    if b == [] {
      assert a + b == a;
    } else {
      var s := b[0];
      var a' := if s in a then a else a + [s];
      MergeThenExpand(x, a', b[1..]);
      assert a + b == a + [s] + b[1..];
      if s in a {
        PermissionsOfAppend(a, b[1..]);
        PermissionsOfAppend(a + [s], b[1..]);
        PermissionsOfAppend(a, [s]);
        var pa, ps, pb := PermissionsOf(a), PermissionsOf([s]), PermissionsOf(b[1..]);
        MergeAppend(x, pa, pb);
        MergeAppend(x, pa + ps, pb);
        MergeAppend(x, pa, ps);
        MergeMembers(x, pa);
        ContributionWithin(a, s);
        OneScope(s);
        MergeKnown(Merge(x, pa), ps);
      }
    }
  }

  lemma OneScope(s: string)
    ensures PermissionsOf([s]) == Contribution(s)
  {
  }

  lemma {:induction false} MergeOfDedup(x: seq<string>, a: seq<string>)
    ensures Merge(x, Dedup(a)) == Merge(x, a)
  {
    MergeAssociative(x, [], a);
  }

  /** Accumulating scopes and then mapping them is mapping each batch and accumulating permissions. */
  lemma {:induction false} MappingIsHomomorphic(a: seq<string>, b: seq<string>)
    ensures PermissionsFor(Merge(a, b)) == Merge(PermissionsFor(a), PermissionsFor(b))
  {
    hide Contribution, PermissionsOf, Merge;
    MergeThenExpand([], a, b);
    PermissionsOfAppend(a, b);
    MergeAppend([], PermissionsOf(a), PermissionsOf(b));
    MergeOfDedup(Dedup(PermissionsOf(a)), PermissionsOf(b));
  }

  // ----- the round trip -----

  predicate Plain(permission: string) {
    !StartsWith(permission, MCP_SCOPE_PREFIX) && permission != "tools"
  }

  /** The permission that comes back from a permission's scope. */
  function Back(permission: string): string {
    ScopeToPermission(PermissionToScope(permission))
  }

  lemma ScopeShape(permission: string)
    ensures var scope := PermissionToScope(permission);
            StartsWith(scope, "mcp:") && scope !in OIDC_STANDARD_SCOPES && scope !in CATEGORY_SCOPE_MAP
  {
    var scope := PermissionToScope(permission);
    assert BROAD_OAUTH_SCOPE == "mcp:" + "tools";
    assert scope[3] == ':';
    assert "openid"[3] != ':' && "profile"[3] != ':' && "email"[3] != ':' && "address"[3] != ':' && "phone"[3] != ':'
        && "offline_access"[3] != ':';
    assert "mcp_tools"[3] != ':' && "mcp_resources"[3] != ':' && "mcp_prompts"[3] != ':';
  }

  /** One permission comes back unchanged exactly when it is plain. */
  lemma BackIffPlain(permission: string)
    ensures Back(permission) == permission <==> Plain(permission)
    ensures StartsWith(permission, "mcp:") && StartsWith(Back(permission), "mcp:") ==> |Back(permission)| < |permission|
    ensures !StartsWith(permission, "mcp:") && StartsWith(Back(permission), "mcp:") ==> false
    ensures Back(permission) != "tools"
  {
    ScopeShape(permission);
    assert "mcp:tools" == "mcp:" + "tools";
    assert "*:*"[0] != 'm' && |"*:*"| == 3 && |"tools"| == 5;
    var scope := PermissionToScope(permission);
    if !StartsWith(permission, "mcp:") && permission != "*:*" {
      assert scope == "mcp:" + permission && scope[4..] == permission;
      assert scope == "mcp:tools" ==> scope[4..] == "mcp:tools"[4..] == "tools";
    } else if permission != "*:*" {
      assert permission == "mcp:" + permission[4..];
    }
  }

  lemma {:induction false} PermissionsBack(ps: seq<string>, k: nat)
    ensures |PermissionsOf(ScopesOf(ps))| == |ps|
    ensures k < |ps| ==> PermissionsOf(ScopesOf(ps))[k] == Back(ps[k])
    decreases |ps|
  {
    if ps != [] {
      ScopeShape(ps[0]);
      hide Contribution;
      assert Contribution(PermissionToScope(ps[0])) == [Back(ps[0])] by { ContributionOfScope(ps[0]); }
      assert ScopesOf(ps)[1..] == ScopesOf(ps[1..]);
      PermissionsBack(ps[1..], if k > 0 then k - 1 else 0);
    }
  }

  lemma ContributionOfScope(p: string)
    ensures Contribution(PermissionToScope(p)) == [Back(p)]
  {
    ScopeShape(p);
  }

  lemma PlainListComesBack(ps: seq<string>)
    requires forall p :: p in ps ==> Plain(p)
    ensures PermissionsOf(ScopesOf(ps)) == ps
  {
    hide PermissionsOf, ScopesOf, Back, Plain;
    PermissionsBack(ps, 0);
    forall k | 0 <= k < |ps| ensures PermissionsOf(ScopesOf(ps))[k] == ps[k] {
      PermissionsBack(ps, k);
      assert ps[k] in ps;
      BackIffPlain(ps[k]);
    }
  }

  function MaxLength(ps: seq<string>): (n: nat)
    ensures forall p :: p in ps ==> |p| <= n
  {
    if ps == [] then 0
    else
      var rest := MaxLength(ps[1..]);
      if |ps[0]| > rest then |ps[0]| else rest
  }

  lemma {:induction false} SameMembersArePlain(ps: seq<string>, p: string)
    requires forall x :: x in ps ==> exists q :: q in ps && Back(q) == x
    requires p in ps
    ensures Plain(p)
  {
    hide Back;
    var origin :| origin in ps && Back(origin) == p;
    BackIffPlain(origin);
    if StartsWith(p, "mcp:") {
      // each such permission must come back from a longer one
      var longer := p;
      while |longer| <= MaxLength(ps)
        invariant longer in ps && StartsWith(longer, "mcp:")
        decreases MaxLength(ps) - |longer|
      {
        var q :| q in ps && Back(q) == longer;
        BackIffPlain(q);
        longer := q;
      }
      assert false;
    }
  }

  lemma BackOfSomeMember(ps: seq<string>, x: string)
    requires x in PermissionsOf(ScopesOf(ps))
    ensures exists q :: q in ps && Back(q) == x
  {
    hide PermissionsOf, ScopesOf, Back;
    var back := PermissionsOf(ScopesOf(ps));
    var k :| 0 <= k < |back| && back[k] == x;
    PermissionsBack(ps, k);
    assert ps[k] in ps;
  }

  lemma OnlyPlainListsComeBack(ps: seq<string>)
    requires Dedup(PermissionsOf(ScopesOf(ps))) == Dedup(ps)
    ensures forall p :: p in ps ==> Plain(p)
  {
    hide PermissionsOf, ScopesOf, Back, Plain, Merge;
    var back := PermissionsOf(ScopesOf(ps));
    MergeMembers([], back);
    MergeMembers([], ps);
    forall x | x in ps ensures exists q :: q in ps && Back(q) == x {
      BackOfSomeMember(ps, x);
    }
    forall p | p in ps ensures Plain(p) {
      SameMembersArePlain(ps, p);
    }
  }

  /** Mapping a permission list to scopes and back yields its first-occurrence deduplication
      exactly when no permission starts with `mcp:` or is `tools`; the wildcard comes back. */
  lemma ScopesRoundTrip(ps: seq<string>)
    ensures PermissionsFor(ScopesFor(ps)) == Dedup(ps) <==> forall p :: p in ps ==> Plain(p)
  {
    hide PermissionsOf, ScopesOf, Back, Plain, Merge;
    MergeThenExpand([], [], ScopesOf(ps));
    assert [] + ScopesOf(ps) == ScopesOf(ps);
    if forall p :: p in ps ==> Plain(p) {
      PlainListComesBack(ps);
    }
    if Dedup(PermissionsOf(ScopesOf(ps))) == Dedup(ps) {
      OnlyPlainListsComeBack(ps);
    }
  }

  // ----- the loops -----

  method PermissionsToScopes(permissions: seq<string>) returns (result: seq<string>)
    ensures result == ScopesFor(permissions)
  {
    var seen: set<string> := {};
    result := [];
    for i := 0 to |permissions|
      invariant seen == set x | x in result
      invariant Merge(result, ScopesOf(permissions[i..])) == ScopesFor(permissions)
    {
      hide PermissionToScope;
      var scope := PermissionToScope(permissions[i]);
      if scope !in seen {
        seen := seen + {scope};
        result := result + [scope];
      }
      assert ScopesOf(permissions[i..])[1..] == ScopesOf(permissions[i + 1..]);
    }
  }

  method ScopesToPermissions(scopes: seq<string>) returns (result: seq<string>)
    ensures result == PermissionsFor(scopes)
  {
    var seen: set<string> := {};
    result := [];
    for i := 0 to |scopes|
      invariant seen == set x | x in result
      invariant Merge(result, PermissionsOf(scopes[i..])) == PermissionsFor(scopes)
    {
      hide ScopeToPermission, Merge;
      var scope := scopes[i];
      MergeAppend(result, Contribution(scope), PermissionsOf(scopes[i + 1..]));
      if scope in OIDC_STANDARD_SCOPES {
        MergeKnown(result, []);
      } else if scope in CATEGORY_SCOPE_MAP {
        result, seen := AddNew(result, seen, CATEGORY_SCOPE_MAP[scope]);
      } else if StartsWith(scope, MCP_SCOPE_PREFIX) {
        result, seen := AddNew(result, seen, [ScopeToPermission(scope)]);
      } else {
        MergeKnown(result, []);
      }
    }
  }

  /** The inner loop: appends what was not seen. */
  method AddNew(result0: seq<string>, seen0: set<string>, items: seq<string>) returns (result: seq<string>, seen: set<string>)
    requires seen0 == set x | x in result0
    ensures result == Merge(result0, items) && seen == set x | x in result
  {
    result, seen := result0, seen0;
    for i := 0 to |items|
      invariant seen == set x | x in result
      invariant Merge(result, items[i..]) == Merge(result0, items)
    {
      if items[i] !in seen {
        seen := seen + {items[i]};
        result := result + [items[i]];
      }
    }
  }

  method MergeScopes(existing: seq<string>, additional: seq<string>) returns (merged: seq<string>)
    ensures merged == Merge(existing, additional)
  {
    var seen := set x | x in existing;
    merged, seen := AddNew(existing, seen, additional);
  }
}
