/**
 * The constant tables of the quote engine and the admin credentials, with the
 * deployment environment made an explicit value.
 */
module Constants {
  import opened Wrappers

  /** The environment variables the core reads (None: not set). */
  datatype Env = Env(adminLogin: Option<string>, adminPassword: Option<string>, distanceApiKey: Option<string>)

  datatype Credentials = Credentials(login: string, password: string)

  /** `process.env.X || default`: an unset or empty variable gives the default. */
  function EnvOr(v: Option<string>, default: string): (r: string)
    ensures Truthy(v) ==> r == v.value
    ensures !Truthy(v) ==> r == default
  {
    if Truthy(v) then v.value else default
  }

  function AdminCredentials(env: Env): (c: Credentials)
    ensures !Truthy(env.adminLogin) && !Truthy(env.adminPassword) ==> c == Credentials("admin", "admin123")
    ensures Truthy(env.adminLogin) ==> c.login == env.adminLogin.value
    ensures Truthy(env.adminPassword) ==> c.password == env.adminPassword.value
  {
    Credentials(EnvOr(env.adminLogin, "admin"), EnvOr(env.adminPassword, "admin123"))
  }

  /** The key both the distance resolver and the calculator look routes up by. */
  function RouteKey(cityFrom: string, cityTo: string): string {
    cityFrom + "-" + cityTo
  }

  /** Flat transport prices of the fixed routes. */
  const FixedRoutes: map<string, real> := map[
    "Москва-Сочи" := 200000.0,
    "Сочи-Москва" := 200000.0,
    "Бишкек-Москва" := 350000.0,
    "Москва-Бишкек" := 350000.0
  ]

  const DefaultPricePerKmUnder1000: real := 150.0
  const DefaultPricePerKmOver1000: real := 100.0

  /** Insurance is exactly one tenth of the transport price. */
  const InsuranceRate: real := 0.1

  /** The daily norm: 1000 km per 24 hours. */
  const KmPerDay: nat := 1000

  /** Route names in the two-way fixed-price table. */
  predicate IsFixedPair(a: string, b: string) {
    (a == "Москва" && b == "Сочи") || (a == "Сочи" && b == "Москва")
    || (a == "Бишкек" && b == "Москва") || (a == "Москва" && b == "Бишкек")
  }

  /** In a key whose halves hold no '-', the only '-' is the separator. */
  lemma OnlyDashAt(x: string, y: string, i: nat)
    requires '-' !in x && '-' !in y && i < |RouteKey(x, y)|
    ensures RouteKey(x, y)[i] == '-' <==> i == |x|
  {
    var k := RouteKey(x, y);
    if i < |x| {
      assert k[i] == x[i];
    } else if i > |x| {
      assert k[i] == y[i - |x| - 1];
    }
  }

  /** A key whose halves hold no '-' is split back into them by any pair that builds it. */
  lemma {:induction false} UniqueDashSplit(a: string, b: string, x: string, y: string)
    requires RouteKey(a, b) == RouteKey(x, y)
    requires '-' !in x && '-' !in y
    ensures a == x && b == y
  {
    var k := RouteKey(x, y);
    assert k[|a|] == '-';
    OnlyDashAt(x, y, |a|);
    assert a == k[..|a|] && x == k[..|x|];
    assert b == k[|a| + 1..] && y == k[|x| + 1..];
  }

  /**
   * A fixed-route key is built from exactly one city pair: each listed key has
   * a single '-', so the origin is what comes before it.
   */
  lemma {:induction false} FixedRouteKeyNames(a: string, b: string)
    requires RouteKey(a, b) in FixedRoutes
    ensures IsFixedPair(a, b)
  {
    FixedPairKeys();
    var k := RouteKey(a, b);
    if k == "Москва-Сочи" {
      UniqueDashSplit(a, b, "Москва", "Сочи");
    } else if k == "Сочи-Москва" {
      UniqueDashSplit(a, b, "Сочи", "Москва");
    } else if k == "Бишкек-Москва" {
      UniqueDashSplit(a, b, "Бишкек", "Москва");
    } else {
      UniqueDashSplit(a, b, "Москва", "Бишкек");
    }
  }

  /** The keys the four listed pairs build. */
  lemma FixedPairKeys()
    ensures RouteKey("Москва", "Сочи") == "Москва-Сочи"
    ensures RouteKey("Сочи", "Москва") == "Сочи-Москва"
    ensures RouteKey("Бишкек", "Москва") == "Бишкек-Москва"
    ensures RouteKey("Москва", "Бишкек") == "Москва-Бишкек"
  {
    assert RouteKey("Москва", "Сочи") == "Москва-Сочи" by { assert "Москва" + "-" + "Сочи" == "Москва-Сочи"; }
    assert "Сочи" + "-" + "Москва" == "Сочи-Москва";
    assert "Бишкек" + "-" + "Москва" == "Бишкек-Москва";
    assert "Москва" + "-" + "Бишкек" == "Москва-Бишкек";
  }

  /** Four routes, each priced the same in both directions, every price positive. */
  lemma FixedRoutesSymmetric(a: string, b: string)
    requires RouteKey(a, b) in FixedRoutes
    ensures RouteKey(b, a) in FixedRoutes
    ensures FixedRoutes[RouteKey(b, a)] == FixedRoutes[RouteKey(a, b)] > 0.0
  {
    FixedRouteKeyNames(a, b);
    FixedPairKeys();
  }

  lemma FixedRoutesTable()
    ensures |FixedRoutes| == 4
    ensures forall k :: k in FixedRoutes ==> FixedRoutes[k] > 0.0
    ensures FixedRoutes["Москва-Сочи"] == FixedRoutes["Сочи-Москва"] == 200000.0
    ensures FixedRoutes["Бишкек-Москва"] == FixedRoutes["Москва-Бишкек"] == 350000.0
  {
  }
}
