/** Layered rate resolution: tenant override over global override over settings. */
module RateLimits {
  import opened Text

  /** One stored layer. The tenant table holds strings; the global JSON column may hold a null,
      written `None` here. */
  type Layer = map<string, Option<string>>

  const SCOPES: seq<string> :=
    ["user", "anon", "login", "login_ip", "refresh", "mcp_key", "mcp_ip", "quality_assess", "memory_webhook"]

  datatype Source = Tenant | Global | Settings

  datatype Row = Row(
    effective: Option<string>,
    source: Source,
    settingsValue: Option<string>,
    tenantOverride: Option<string>,
    globalOverride: Option<string>,
    disabled: bool)

  /** `layer.get(scope)`: an absent scope and a stored null look alike. */
  function Lookup(layer: Layer, scope: string): Option<string> {
    if scope in layer then layer[scope] else None
  }

  /** `value or None`: the empty string means unlimited. */
  function OrNone(value: Option<string>): Option<string> {
    if value == Some("") then None else value
  }

  /** `resolve_rate` on the maps the two loaders return; `tenant` is `None` for a request without tenant. */
  function ResolveRate(tenant: Option<Layer>, global: Layer, scope: string, default: Option<string>): Option<string> {
    if tenant.Some? && Lookup(tenant.value, scope).Some? then OrNone(Lookup(tenant.value, scope))
    else if Lookup(global, scope).Some? then OrNone(Lookup(global, scope))
    else OrNone(default)
  }

  /** The first of tenant override, global override and settings that has a value decides; the empty string
      stands for no limit. */
  lemma {:induction false} ResolveExactly(tenant: Option<Layer>, global: Layer, scope: string, default: Option<string>)
    ensures
      var r := ResolveRate(tenant, global, scope, default);
      var byTenant := tenant.Some? && scope in tenant.value && tenant.value[scope] != None;
      var byGlobal := scope in global && global[scope] != None;
      && (byTenant ==> r == if tenant.value[scope] == Some("") then None else tenant.value[scope])
      && (!byTenant && byGlobal ==> r == if global[scope] == Some("") then None else global[scope])
      && (!byTenant && !byGlobal ==> r == if default == Some("") then None else default)
  {
  }

  /** The layer `_tenant_overrides` yields: empty without a tenant. */
  function TenantLayer(tenant: Option<Layer>): Layer {
    if tenant.Some? then tenant.value else map[]
  }

  /** Some layer stores a null for the scope, above the value that resolution would reach. */
  predicate NullInTheWay(tenant: Option<Layer>, global: Layer, scope: string, default: Option<string>) {
    var t := TenantLayer(tenant);
    || (scope in t && t[scope].None? && ResolveRate(None, global, scope, default).Some?)
    || (scope !in t && scope in global && global[scope].None? && OrNone(default).Some?)
  }

  /** Every stored value is a string. */
  ghost predicate StringValued(layer: Layer) {
    forall s :: s in layer ==> layer[s].Some?
  }

  // ---------- the admin view ----------

  /** What a row of the view has to say about its scope. */
  ghost predicate Explains(row: Row, tenant: Option<Layer>, global: Layer, scope: string, default: Option<string>) {
    && (if NullInTheWay(tenant, global, scope, default)
        then row.effective.None?
        else row.effective == ResolveRate(tenant, global, scope, default))
    && (row.source == Tenant <==> scope in TenantLayer(tenant))
    && (row.source == Global <==> scope !in TenantLayer(tenant) && scope in global)
    && (row.disabled <==> row.effective.None?)
    && row.settingsValue == OrNone(default)
    && row.tenantOverride == Lookup(TenantLayer(tenant), scope)
    && row.globalOverride == Lookup(global, scope)
  }

  /** `effective_rates`: one row per scope, computed independently of `resolve_rate`; the two agree exactly
      where no null stands in the way. */
  method EffectiveRates(tenant: Option<Layer>, global: Layer, defaults: Layer) returns (result: map<string, Row>)
    ensures result.Keys == (set s | s in SCOPES)
    ensures forall s :: s in result ==> Explains(result[s], tenant, global, s, Lookup(defaults, s))
    ensures forall s :: s in result ==>
      (result[s].effective == ResolveRate(tenant, global, s, Lookup(defaults, s)) <==>
         !NullInTheWay(tenant, global, s, Lookup(defaults, s)))
  {
    var tenantOverrides := TenantLayer(tenant);
    result := map[];
    for i := 0 to |SCOPES|
      invariant forall s :: s in result <==> s in SCOPES[..i]
      invariant forall s :: s in result ==> Explains(result[s], tenant, global, s, Lookup(defaults, s))
    {
      var scope := SCOPES[i];
      var settingsValue := OrNone(Lookup(defaults, scope));
      var source, effective := Settings, settingsValue;
      if scope in tenantOverrides {
        source, effective := Tenant, OrNone(tenantOverrides[scope]);
      } else if scope in global {
        source, effective := Global, OrNone(global[scope]);
      }
      result := result[scope := Row(
                         effective, source, settingsValue, Lookup(tenantOverrides, scope), Lookup(global, scope),
                         effective.None?)];
    }
  }

  /** With string values only, nothing stands in the way: the two computations agree everywhere. */
  lemma {:induction false} StringsAgree(tenant: Option<Layer>, global: Layer, scope: string, default: Option<string>)
    requires StringValued(TenantLayer(tenant)) && StringValued(global)
    ensures !NullInTheWay(tenant, global, scope, default)
  {
  }

  /** A null in the global layer hides the settings value from the view but not from the throttle. */
  lemma {:induction false} NullDisagrees()
    ensures NullInTheWay(None, map["user" := None], "user", Some("600/min"))
    ensures ResolveRate(None, map["user" := None], "user", Some("600/min")) == Some("600/min")
  {
  }

  // ---------- which layer decides ----------

  /** The tenant layer decides exactly when no change of the layers below can change the result. */
  lemma {:induction false} TenantDecides(tenant: Layer, global: Layer, scope: string, default: Option<string>)
    requires StringValued(tenant)
    ensures scope in tenant <==>
              forall g: Layer, d: Option<string> ::
                ResolveRate(Some(tenant), g, scope, d) == ResolveRate(Some(tenant), global, scope, default)
  {
    if scope !in tenant {
      var g1: Layer, g2: Layer := map[scope := Some("1/s")], map[scope := Some("2/s")];
      assert ResolveRate(Some(tenant), g1, scope, default) != ResolveRate(Some(tenant), g2, scope, default);
    }
  }

  /** Some override decides exactly when no change of the settings can change the result. */
  lemma {:induction false} OverrideDecides(
    tenant: Option<Layer>, global: Layer, scope: string, default: Option<string>)
    requires StringValued(TenantLayer(tenant)) && StringValued(global)
    ensures (scope in TenantLayer(tenant) || scope in global) <==>
              forall d: Option<string> ::
                ResolveRate(tenant, global, scope, d) == ResolveRate(tenant, global, scope, default)
  {
    if scope !in TenantLayer(tenant) && scope !in global {
      assert ResolveRate(tenant, global, scope, Some("1/s")) != ResolveRate(tenant, global, scope, Some("2/s"));
    }
  }

  /** A scope is unlimited exactly when the first layer that has it says so with an empty string, or no layer
      has it and the settings are silent or empty: an empty string above hides every rate below. */
  lemma {:induction false} UnlimitedExactly(tenant: Option<Layer>, global: Layer, scope: string, default: Option<string>)
    requires StringValued(TenantLayer(tenant)) && StringValued(global)
    ensures ResolveRate(tenant, global, scope, default) == None <==>
              var layers := [TenantLayer(tenant), global];
              || (exists k :: 0 <= k < 2 && First(layers, k, scope) && layers[k][scope] == Some(""))
              || ((forall k :: 0 <= k < 2 ==> scope !in layers[k]) && OrNone(default) == None)
  {
    var layers := [TenantLayer(tenant), global];
    if scope in layers[0] {
      assert First(layers, 0, scope);
    } else if scope in layers[1] {
      assert First(layers, 1, scope);
    }
  }

  /** Layer `k` is the first that has the scope. */
  ghost predicate First(layers: seq<Layer>, k: nat, scope: string)
    requires k < |layers|
  {
    scope in layers[k] && forall j :: 0 <= j < k ==> scope !in layers[j]
  }

  /** A tenant layer that failed to load resolves like a request without tenant; a global layer that failed
      to load leaves the settings. */
  lemma {:induction false} FailedLayerAbsent(tenant: Option<Layer>, global: Layer, scope: string, default: Option<string>)
    ensures ResolveRate(Some(map[]), global, scope, default) == ResolveRate(None, global, scope, default)
    ensures ResolveRate(None, map[], scope, default) == OrNone(default)
  {
  }
}
