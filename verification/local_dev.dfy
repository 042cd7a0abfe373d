/** The local development server (`local-dev.js`): it turns the query
    string into the `req.query` object the Vercel handlers read, and
    dispatches on the path. */
module LocalDev {
  import opened Wrappers
  import opened Text
  import opened ProxyInput

  // ---------------------------------------------------------------------
  // The query object
  // ---------------------------------------------------------------------

  /** A value held in the query object: a query value, or a built-in
      function the object inherits from `Object.prototype`. */
  datatype Held = Str(s: string) | Builtin(name: string)

  /** What `query[key]` holds: one value, or an array of them. */
  datatype Slot = Single(h: Held) | Array(items: seq<Held>)

  /** The names a plain object `{}` inherits from `Object.prototype`
      (`__proto__` aside, see the README). */
  const PrototypeMembers: set<string> :=
    {"constructor", "hasOwnProperty", "isPrototypeOf", "propertyIsEnumerable", "toLocaleString",
     "toString", "valueOf", "__defineGetter__", "__defineSetter__", "__lookupGetter__", "__lookupSetter__"}

  /** JavaScript truthiness of what `query[key]` holds: a function and an
      array are truthy, a string unless it is empty. */
  predicate Truthy(slot: Slot) {
    match slot
    case Single(Str(s)) => s != ""
    case Single(Builtin(_)) => true
    case Array(_) => true
  }

  /** `query[key]` on an object whose own entries are `query` and which
      inherits the names in `inherited`. */
  function Current(query: map<string, Slot>, inherited: set<string>, key: string): Option<Slot> {
    if key in query then Some(query[key])
    else if key in inherited then Some(Single(Builtin(key)))
    else None
  }

  /** One turn of the loop: a truthy entry becomes an array or grows by
      the new value, anything else is replaced by the new value. */
  function Store(current: Option<Slot>, value: string): (r: Slot)
    ensures current.Some? && Truthy(current.value) ==> r.Array?
    ensures !(current.Some? && Truthy(current.value)) ==> r == Single(Str(value))
  {
    if current.Some? && Truthy(current.value) then
      match current.value
      case Array(items) => Array(items + [Str(value)])
      case Single(h) => Array([h, Str(value)])
    else Single(Str(value))
  }

  /** The values given for `key`, in order. */
  function ValuesOf(pairs: seq<(string, string)>, key: string): seq<string> {
    if |pairs| == 0 then []
    else ValuesOf(pairs[..|pairs| - 1], key) + (if pairs[|pairs| - 1].0 == key then [pairs[|pairs| - 1].1] else [])
  }

  /** A key has values exactly when it occurs. */
  lemma {:induction false} ValuesOfOccurs(pairs: seq<(string, string)>, key: string)
    ensures ValuesOf(pairs, key) != [] <==> exists j | 0 <= j < |pairs| :: pairs[j].0 == key
  {
    if |pairs| > 0 {
      var init := pairs[..|pairs| - 1];
      ValuesOfOccurs(init, key);
      assert forall j | 0 <= j < |init| :: init[j] == pairs[j];
    }
  }

  function Strs(vs: seq<string>): (r: seq<Held>)
    ensures |r| == |vs| && forall j | 0 <= j < |vs| :: r[j] == Str(vs[j])
  {
    seq(|vs|, j requires 0 <= j < |vs| => Str(vs[j]))
  }

  /** What an own key ends up holding, given its values: leading empty
      values are dropped (each is overwritten by the next), then one value
      stays a string and several become an array of all of them. */
  function KeySlot(vs: seq<string>): Slot
    requires vs != []
  {
    if |vs| == 1 then Single(Str(vs[0]))
    else if vs[0] == "" then KeySlot(vs[1..])
    else Array(Strs(vs))
  }

  /** What `key` ends up holding, given its values, on an object that
      inherits `inherited`: an inherited name starts out truthy, so its
      first value already makes an array, headed by the inherited
      function. */
  function Expected(inherited: set<string>, key: string, vs: seq<string>): Slot
    requires vs != []
  {
    if key in inherited then Array([Builtin(key)] + Strs(vs)) else KeySlot(vs)
  }

  /** `Expected` follows the loop: one more value is one more `Store`. */
  lemma {:induction false} KeySlotSnoc(vs: seq<string>, v: string)
    requires vs != []
    ensures KeySlot(vs + [v]) == Store(Some(KeySlot(vs)), v)
    decreases |vs|
  {
    var w := vs + [v];
    assert w[0] == vs[0];
    if |vs| == 1 {
      assert w[1..] == [v];
    } else if vs[0] == "" {
      assert w[1..] == vs[1..] + [v];
      KeySlotSnoc(vs[1..], v);
    } else {
      assert Strs(w) == Strs(vs) + [Str(v)];
    }
  }

  lemma ExpectedSnoc(inherited: set<string>, key: string, vs: seq<string>, v: string)
    ensures var current := if vs == [] then (if key in inherited then Some(Single(Builtin(key))) else None)
                           else Some(Expected(inherited, key, vs));
            Expected(inherited, key, vs + [v]) == Store(current, v)
  {
    if key in inherited {
      assert Strs(vs + [v]) == Strs(vs) + [Str(v)];
      if vs == [] {
        assert [Builtin(key)] + Strs([v]) == [Builtin(key), Str(v)];
      }
    } else if vs != [] {
      KeySlotSnoc(vs, v);
    }
  }

  /** `parseQuery` over the `(key, value)` pairs of the query string, on
      an object inheriting `inherited`: as written the object is `{}` and
      inherits `PrototypeMembers`; with own properties only (the evident
      intent) it inherits nothing. Every key that occurs gets an entry, and
      that entry is what its values lead to. */
  method ParseQuery(pairs: seq<(string, string)>, inherited: set<string>) returns (query: map<string, Slot>)
    ensures forall k :: k in query <==> ValuesOf(pairs, k) != []
    ensures forall k | k in query :: query[k] == Expected(inherited, k, ValuesOf(pairs, k))
  {
    query := map[];
    for i := 0 to |pairs|
      invariant forall k :: k in query <==> ValuesOf(pairs[..i], k) != []
      invariant forall k | k in query :: query[k] == Expected(inherited, k, ValuesOf(pairs[..i], k))
    {
      var (key, value) := pairs[i];
      var vs := ValuesOf(pairs[..i], key);
      assert Current(query, inherited, key)
             == (if vs == [] then (if key in inherited then Some(Single(Builtin(key))) else None)
                 else Some(Expected(inherited, key, vs)));
      ExpectedSnoc(inherited, key, vs, value);
      var before := query;
      query := query[key := Store(Current(query, inherited, key), value)];
      assert pairs[..i + 1][..i] == pairs[..i];
      assert forall k :: ValuesOf(pairs[..i + 1], k) == ValuesOf(pairs[..i], k) + (if k == key then [value] else []);
      assert query[key] == Expected(inherited, key, ValuesOf(pairs[..i + 1], key));
      forall k | k in query
        ensures query[k] == Expected(inherited, k, ValuesOf(pairs[..i + 1], k))
      {
        if k != key {
          assert k in before && ValuesOf(pairs[..i + 1], k) == ValuesOf(pairs[..i], k);
        }
      }
    }
    assert pairs[..|pairs|] == pairs;
  }

  // ---------------------------------------------------------------------
  // What a key holds, with own properties only
  // ---------------------------------------------------------------------

  /** With own properties only, the rules are those of `KeySlot`. */
  lemma OwnKeysOnly(key: string, vs: seq<string>)
    requires vs != []
    ensures Expected({}, key, vs) == KeySlot(vs)
  {
  }

  /** Leading empty values are skipped. */
  function FirstNonEmpty(vs: seq<string>): (j: nat)
    ensures j <= |vs|
    ensures forall i | 0 <= i < j :: vs[i] == ""
    ensures j < |vs| ==> vs[j] != ""
  {
    if |vs| == 0 || vs[0] != "" then 0 else 1 + FirstNonEmpty(vs[1..])
  }

  /** The closed form of `KeySlot`: a key whose values before the last are
      all empty holds its last value; otherwise it holds, as an array and
      in order, every value from its first non-empty one on. */
  lemma {:induction false} KeySlotSpec(vs: seq<string>)
    requires vs != []
    ensures FirstNonEmpty(vs) >= |vs| - 1 ==> KeySlot(vs) == Single(Str(vs[|vs| - 1]))
    ensures FirstNonEmpty(vs) < |vs| - 1 ==> KeySlot(vs) == Array(Strs(vs[FirstNonEmpty(vs)..]))
    decreases |vs|
  {
    if |vs| > 1 && vs[0] == "" {
      KeySlotSpec(vs[1..]);
    }
  }

  /** A key given once holds its value as a string. */
  lemma SingleValue(pairs: seq<(string, string)>, key: string, v: string)
    requires ValuesOf(pairs, key) == [v]
    ensures Expected({}, key, ValuesOf(pairs, key)) == Single(Str(v))
  {
  }

  /** A repeated key whose first value is not empty holds all its values,
      in order. */
  lemma RepeatedValues(vs: seq<string>)
    requires |vs| >= 2 && vs[0] != ""
    ensures KeySlot(vs) == Array(Strs(vs))
    ensures forall j | 0 <= j < |vs| :: KeySlot(vs).items[j] == Str(vs[j])
  {
  }

  /** An empty value followed by another is lost: the key holds what the
      later values alone would give. */
  lemma EmptyOverwritten(vs: seq<string>, v: string)
    requires vs != []
    ensures KeySlot([""] + vs) == KeySlot(vs)
  {
    assert ([""] + vs)[1..] == vs;
  }

  // ---------------------------------------------------------------------
  // The as-written discrepancy
  // ---------------------------------------------------------------------

  /** As written, a key named like an `Object.prototype` member that is
      given once (`?toString=x`) holds an array headed by the inherited
      function instead of its value. */
  lemma InheritedKeyAsWritten(key: string, v: string)
    requires key in PrototypeMembers
    ensures Expected(PrototypeMembers, key, [v]) == Array([Builtin(key), Str(v)])
    ensures Expected(PrototypeMembers, key, [v]) != Expected({}, key, [v])
  {
    assert [Builtin(key)] + Strs([v]) == [Builtin(key), Str(v)];
  }

  // ---------------------------------------------------------------------
  // What the handlers see
  // ---------------------------------------------------------------------

  /** `String(v)` of what a slot holds. An inherited member prints as its
      function's source; `constructor` is `Object` itself. */
  function HeldText(h: Held): string {
    match h
    case Str(s) => s
    case Builtin(name) =>
      "function " + (if name == "constructor" then "Object" else name) + "() { [native code] }"
  }

  /** The parameter a handler reads from `req.query`. */
  function AsParam(query: map<string, Slot>, key: string): (p: Param)
    ensures key !in query <==> p.Absent?
  {
    if key !in query then Absent
    else match query[key]
      case Single(h) => One(HeldText(h))
      case Array(items) => Many(seq(|items|, j requires 0 <= j < |items| => HeldText(items[j])))
  }

  /** With own properties only, a handler finds a parameter truthy exactly
      when some occurrence of it has a non-empty value. */
  lemma {:induction false} TruthyParam(query: map<string, Slot>, key: string, vs: seq<string>)
    requires key in query && vs != [] && query[key] == KeySlot(vs)
    ensures ProxyInput.Truthy(AsParam(query, key)) <==> exists j | 0 <= j < |vs| :: vs[j] != ""
  {
    KeySlotSpec(vs);
    var f := FirstNonEmpty(vs);
    if f >= |vs| - 1 {
      assert ProxyInput.Truthy(AsParam(query, key)) <==> vs[|vs| - 1] != "";
    } else {
      assert vs[f] != "";
    }
  }

  // ---------------------------------------------------------------------
  // Dispatch
  // ---------------------------------------------------------------------

  /** Where a request goes: a handler, or a 404 `Not found` answer. */
  datatype Route = Api4Route | Api5Route | ProxyRoute | NotFound

  const NotFoundStatus: nat := 404
  const NotFoundMessage: string := "Not found"

  function Dispatch(pathname: string): (r: Route)
    ensures r == Api4Route <==> pathname == "/api4"
    ensures r == Api5Route <==> pathname == "/api5"
    ensures r == ProxyRoute <==> pathname == "/api/proxy"
    ensures r == NotFound <==> pathname !in {"/api4", "/api5", "/api/proxy"}
  {
    if pathname == "/api4" then Api4Route
    else if pathname == "/api5" then Api5Route
    else if pathname == "/api/proxy" then ProxyRoute
    else NotFound
  }
}
