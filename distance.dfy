/**
 * The distance resolver: fixed-route table, then the offline matrix, then the
 * external routing service (its reply is a parameter), then 1000 km.
 */
module Distance {
  import opened Wrappers
  import opened Constants

  /** Offline road distances in km for popular routes. */
  const DistanceMatrix: map<string, nat> := map[
    "Москва-Сочи" := 1600,
    "Сочи-Москва" := 1600,
    "Бишкек-Москва" := 3500,
    "Москва-Бишкек" := 3500,
    "Москва-Санкт-Петербург" := 700,
    "Санкт-Петербург-Москва" := 700,
    "Екатеринбург-Москва" := 1800,
    "Москва-Екатеринбург" := 1800
  ]

  /** A length reported by the routing service, in metres. */
  type Metres = x: real | 0.0 <= x

  const FallbackKm: nat := 1000

  /** Math.round: to the nearest integer, halves upwards. */
  function JsRound(x: real): (n: int)
    ensures n as real - 0.5 <= x < n as real + 0.5
  {
    (x + 0.5).Floor
  }

  /** A table entry that JavaScript's truthiness test accepts. */
  predicate InTable<T(==)>(m: map<string, T>, key: string, zero: T) {
    key in m && m[key] != zero
  }

  /** The routing service's answer was used: a key was configured and it returned a non-zero length. */
  predicate UsesService(apiKey: Option<string>, reply: Option<Metres>) {
    Truthy(apiKey) && reply.Some? && reply.value != 0.0
  }

  /**
   * getDistanceBetweenCities. `reply` is what the routing service would
   * answer for the two names: None when the request fails or the answer has
   * no segment distance. It is looked at only when an API key is configured.
   */
  function GetDistance(cityFrom: string, cityTo: string, apiKey: Option<string>, reply: Option<Metres>): (km: nat)
    ensures km > 0 || (UsesService(apiKey, reply) && reply.value < 500.0)
  {
    var key := RouteKey(cityFrom, cityTo);
    if InTable(FixedRoutes, key, 0.0) then
      if InTable(DistanceMatrix, key, 0) then DistanceMatrix[key] else FallbackKm
    else if InTable(DistanceMatrix, key, 0) then DistanceMatrix[key]
    else if UsesService(apiKey, reply) then JsRound(reply.value / 1000.0)
    else FallbackKm
  }

  /** Every listed matrix entry is positive, so truthiness selects exactly the listed keys. */
  lemma MatrixEntriesPositive()
    ensures forall k :: k in DistanceMatrix ==> DistanceMatrix[k] > 0
  {
  }

  /**
   * The offline matrix holds both directions of each of its four pairs of
   * cities with the same km.
   */
  lemma MatrixIsSymmetric()
    ensures DistanceMatrix["Москва-Сочи"] == DistanceMatrix["Сочи-Москва"] == 1600
    ensures DistanceMatrix["Бишкек-Москва"] == DistanceMatrix["Москва-Бишкек"] == 3500
    ensures DistanceMatrix["Москва-Санкт-Петербург"] == DistanceMatrix["Санкт-Петербург-Москва"] == 700
    ensures DistanceMatrix["Екатеринбург-Москва"] == DistanceMatrix["Москва-Екатеринбург"] == 1800
    ensures |DistanceMatrix| == 8
  {
  }

  /** The tables are consulted by the joined key only: two pairs with one key get one answer. */
  lemma {:induction false} DecidedByKey(a: string, b: string, c: string, d: string, apiKey: Option<string>, reply: Option<Metres>)
    requires RouteKey(a, b) == RouteKey(c, d)
    requires RouteKey(a, b) in DistanceMatrix
    ensures GetDistance(a, b, apiKey, reply) == GetDistance(c, d, apiKey, reply) == DistanceMatrix[RouteKey(a, b)]
  {
    MatrixEntriesPositive();
  }

  /** A key in the fixed-price table takes its matrix distance: Москва-Сочи is 1600 km. */
  lemma FixedRouteUsesMatrix(apiKey: Option<string>, reply: Option<Metres>)
    ensures GetDistance("Москва", "Сочи", apiKey, reply) == 1600
    ensures GetDistance("Бишкек", "Москва", apiKey, reply) == 3500
  {
    FixedPairKeys();
  }

  /** A key outside the fixed table but in the matrix never consults the service. */
  lemma {:induction false} MatrixHit(a: string, b: string, apiKey: Option<string>, reply: Option<Metres>)
    requires RouteKey(a, b) !in FixedRoutes
    requires RouteKey(a, b) in DistanceMatrix
    ensures GetDistance(a, b, apiKey, reply) == DistanceMatrix[RouteKey(a, b)]
  {
    MatrixEntriesPositive();
  }

  /**
   * For a key in neither table: the service's length rounded to whole km when
   * it answers with a non-zero length under a configured key, and 1000 km in
   * every other case (no key, failed request, missing or zero distance).
   */
  lemma {:induction false} UnknownRoute(a: string, b: string, apiKey: Option<string>, reply: Option<Metres>)
    requires RouteKey(a, b) !in FixedRoutes && RouteKey(a, b) !in DistanceMatrix
    ensures UsesService(apiKey, reply) ==>
      var km := GetDistance(a, b, apiKey, reply);
      km as real * 1000.0 - 500.0 <= reply.value < km as real * 1000.0 + 500.0
    ensures !UsesService(apiKey, reply) ==> GetDistance(a, b, apiKey, reply) == 1000
  {
    if UsesService(apiKey, reply) {
      var km := GetDistance(a, b, apiKey, reply);
      assert km == JsRound(reply.value / 1000.0);
      assert km as real - 0.5 <= reply.value / 1000.0 < km as real + 0.5;
    }
  }

  /** Without a configured API key every answer is a positive whole number of km. */
  lemma OfflineIsPositive(a: string, b: string, apiKey: Option<string>, reply: Option<Metres>)
    requires !Truthy(apiKey)
    ensures GetDistance(a, b, apiKey, reply) > 0
  {
  }

  /**
   * Route names that contain '-' can collide: "Москва-Санкт" to "Петербург"
   * builds the key of Москва to Санкт-Петербург and gets its 700 km.
   */
  lemma KeyCollision(apiKey: Option<string>, reply: Option<Metres>)
    ensures RouteKey("Москва-Санкт", "Петербург") == RouteKey("Москва", "Санкт-Петербург")
    ensures GetDistance("Москва-Санкт", "Петербург", apiKey, reply) == 700
  {
    assert RouteKey("Москва-Санкт", "Петербург") == "Москва-Санкт-Петербург";
    assert RouteKey("Москва", "Санкт-Петербург") == "Москва-Санкт-Петербург";
  }
}
