/** Option names crossing from Java to the native library: camelCase becomes snake_case, and nothing
    is lost on the way. */
module JniOptions {
  import opened Text

  const UNDERSCORE: nat := '_' as nat

  predicate IsUpper(u: nat) {
    'A' as nat <= u <= 'Z' as nat
  }

  predicate IsLower(u: nat) {
    'a' as nat <= u <= 'z' as nat
  }

  // Names

  /** What one unit of a Java name becomes. */
  function SnakeUnit(u: nat): Text {
    if IsUpper(u) then [UNDERSCORE, u + 32] else [u]
  }

  function Snake(key: Text): Text {
    if key == [] then [] else Snake(key[..|key| - 1]) + SnakeUnit(key[|key| - 1])
  }

  /** The generator's rule for Java names: an underscore and a lower-case letter become the capital. */
  function Camel(name: Text): Text {
    if name == [] then []
    else if |name| > 1 && name[0] == UNDERSCORE && IsLower(name[1]) then [name[1] - 32] + Camel(name[2..])
    else [name[0]] + Camel(name[1..])
  }

  /** No underscore is followed by a lower-case letter. */
  predicate IsCamel(key: Text) {
    forall i :: 0 <= i < |key| - 1 && key[i] == UNDERSCORE ==> !IsLower(key[i + 1])
  }

  predicate HasNoCapitals(name: Text) {
    forall i :: 0 <= i < |name| ==> !IsUpper(name[i])
  }

  lemma {:induction false} SnakeAppend(a: Text, b: Text)
    ensures Snake(a + b) == Snake(a) + Snake(b)
    decreases |b|
  {
    if b == [] {
      assert a + b == a;
    } else {
      assert (a + b)[..|a + b| - 1] == a + b[..|b| - 1];
      SnakeAppend(a, b[..|b| - 1]);
    }
  }

  lemma SnakeOne(u: nat)
    ensures Snake([u]) == SnakeUnit(u)
  {
    assert [u][..0] == [];
  }

  lemma SnakeFront(key: Text)
    requires key != []
    ensures Snake(key) == SnakeUnit(key[0]) + Snake(key[1..])
  {
    SnakeOne(key[0]);
    hide Snake, SnakeUnit;
    assert key == [key[0]] + key[1..];
    SnakeAppend([key[0]], key[1..]);
  }

  lemma CamelCapital(u: nat, rest: Text)
    requires IsUpper(u)
    ensures Camel([UNDERSCORE, u + 32] + rest) == [u] + Camel(rest)
  {
    assert ([UNDERSCORE, u + 32] + rest)[2..] == rest;
  }

  lemma CamelPlain(u: nat, rest: Text)
    requires u == UNDERSCORE && rest != [] ==> !IsLower(rest[0])
    ensures Camel([u] + rest) == [u] + Camel(rest)
  {
    assert ([u] + rest)[1..] == rest;
  }

  lemma CamelRest(key: Text)
    requires key != [] && IsCamel(key)
    ensures IsCamel(key[1..])
  {
    assert forall i :: 0 <= i < |key[1..]| ==> key[1..][i] == key[i + 1];
  }

  lemma CamelOfFirst(key: Text)
    requires key != [] && IsCamel(key)
    ensures Camel(SnakeUnit(key[0]) + Snake(key[1..])) == [key[0]] + Camel(Snake(key[1..]))
  {
    hide Camel;
    var rest := key[1..];
    if IsUpper(key[0]) {
      CamelCapital(key[0], Snake(rest));
    } else {
      if rest != [] {
        SnakeFront(rest);
        assert rest[0] == key[1];
      }
      hide Snake;
      CamelPlain(key[0], Snake(rest));
    }
  }

  lemma {:induction false} CamelOfSnakeBack(key: Text)
    requires IsCamel(key)
    ensures Camel(Snake(key)) == key
    decreases |key|
  {
    if key != [] {
      hide Camel, Snake, SnakeUnit, IsCamel;
      SnakeFront(key);
      CamelRest(key);
      CamelOfSnakeBack(key[1..]);
      CamelOfFirst(key);
    }
  }

  lemma {:induction false} CamelIsCamel(name: Text)
    ensures IsCamel(Camel(name))
    ensures name != [] && !IsLower(name[0]) ==> Camel(name) != [] && !IsLower(Camel(name)[0])
    decreases |name|
  {
    if name != [] {
      var n := if |name| > 1 && name[0] == UNDERSCORE && IsLower(name[1]) then 2 else 1;
      CamelIsCamel(name[n..]);
      CamelFrontIsCamel(Camel(name)[0], Camel(name[n..]));
    }
  }

  lemma CamelFrontIsCamel(u: nat, rest: Text)
    requires IsCamel(rest) && (u == UNDERSCORE && rest != [] ==> !IsLower(rest[0]))
    ensures IsCamel([u] + rest)
  {
    var key := [u] + rest;
    forall i | 0 <= i < |key| - 1 && key[i] == UNDERSCORE ensures !IsLower(key[i + 1]) {
      assert i > 0 ==> rest[i - 1] == UNDERSCORE;
    }
  }

  /** The translated name leads back to exactly the names without an underscore before a lower-case
      letter. */
  lemma CamelOfSnake(key: Text)
    ensures Camel(Snake(key)) == key <==> IsCamel(key)
  {
    CamelIsCamel(Snake(key));
    if IsCamel(key) {
      CamelOfSnakeBack(key);
    }
  }

  /** No two such names are translated alike. */
  lemma SnakeInjective(a: Text, b: Text)
    requires IsCamel(a) && IsCamel(b) && Snake(a) == Snake(b)
    ensures a == b
  {
    CamelOfSnake(a);
    CamelOfSnake(b);
  }

  lemma SnakePair(u: nat)
    requires IsUpper(u)
    ensures Snake([UNDERSCORE, u + 32]) == Snake([u])
  {
    SnakeOne(u);
    SnakeOne(u + 32);
    SnakeOne(UNDERSCORE);
    SnakeAppend([UNDERSCORE], [u + 32]);
    hide Snake;
    assert [UNDERSCORE, u + 32] == [UNDERSCORE] + [u + 32];
  }

  lemma SnakeMiddle(a: Text, m: Text, b: Text)
    ensures Snake(a + m + b) == Snake(a) + Snake(m) + Snake(b)
  {
    hide Snake;
    SnakeAppend(a, m);
    SnakeAppend(a + m, b);
  }

  lemma CapitalOrUnderscore(a: Text, u: nat, b: Text)
    requires IsUpper(u)
    ensures Snake(a + [u] + b) == Snake(a + [UNDERSCORE, u + 32] + b)
  {
    hide Snake;
    SnakePair(u);
    SnakeMiddle(a, [u], b);
    SnakeMiddle(a, [UNDERSCORE, u + 32], b);
  }

  lemma CollidingNames()
    ensures Ascii("canPublish") == Ascii("can") + ['P' as nat] + Ascii("ublish")
    ensures Ascii("can_publish") == Ascii("can") + [UNDERSCORE, 'p' as nat] + Ascii("ublish")
    ensures !IsCamel(Ascii("can_publish"))
  {
    assert Ascii("can_publish")[3] == UNDERSCORE && IsLower(Ascii("can_publish")[4]);
  }

  lemma {:induction false} SnakeHasNoCapitals(key: Text)
    ensures HasNoCapitals(Snake(key))
    decreases |key|
  {
    if key != [] {
      SnakeHasNoCapitals(key[..|key| - 1]);
    }
  }

  lemma {:induction false} SnakeOfCamelBack(name: Text)
    requires HasNoCapitals(name)
    ensures Snake(Camel(name)) == name
    decreases |name|
  {
    if name != [] {
      hide Snake;
      var n := if |name| > 1 && name[0] == UNDERSCORE && IsLower(name[1]) then 2 else 1;
      var rest := name[n..];
      SnakeOfCamelBack(rest);
      var u := if n == 2 then name[1] - 32 else name[0];
      SnakeFront([u] + Camel(rest));
      assert ([u] + Camel(rest))[1..] == Camel(rest);
      assert name == SnakeUnit(u) + rest;
    } else {
      assert Snake([]) == [];
    }
  }

  /** The translation undoes the generator's rule for exactly the field names without capitals. */
  lemma SnakeOfCamel(name: Text)
    ensures Snake(Camel(name)) == name <==> HasNoCapitals(name)
  {
    SnakeHasNoCapitals(Camel(name));
    if HasNoCapitals(name) {
      SnakeOfCamelBack(name);
    }
  }

  /** The condition matters: outside it every name is translated like another one, the Java name its
      translation leads back to. */
  lemma Collision(key: Text)
    requires !IsCamel(key)
    ensures Camel(Snake(key)) != key && Snake(Camel(Snake(key))) == Snake(key)
  {
    CamelOfSnake(key);
    SnakeHasNoCapitals(key);
    SnakeOfCamel(Snake(key));
  }

  /** Such a pair. */
  lemma CollidingPair()
    ensures Snake(Ascii("canPublish")) == Snake(Ascii("can_publish"))
    ensures !IsCamel(Ascii("can_publish"))
  {
    CollidingNames();
    hide Ascii, Snake, IsCamel;
    CapitalOrUnderscore(Ascii("can"), 'P' as nat, Ascii("ublish"));
  }

  // Options

  /** A protobuf value: an object, or anything else. */
  datatype Value = Struct(fields: map<Text, Value>) | Other(value: Text)

  /** `struct_value()`: empty when the value is no object. */
  function Fields(v: Value): map<Text, Value> {
    if v.Struct? then v.fields else map[]
  }

  predicate IsGrant(key: Text) {
    key == Ascii("video") || key == Ascii("sip") || key == Ascii("agent")
  }

  /** w is the value v of key arrives as: grants are translated in turn, anything else, attributes
      among it, is kept as it is. */
  ghost predicate Arrives(key: Text, v: Value, w: Value, grants: bool)
    decreases grants, 1
  {
    if grants && IsGrant(key) then w.Struct? && Translates(Fields(v), w.fields, false) else w == v
  }

  /** Every option arrives under its translated name, and nothing else does. */
  ghost predicate Translates(source: map<Text, Value>, result: map<Text, Value>, grants: bool)
    decreases grants, 2
  {
    && (forall k :: k in source ==> Snake(k) in result)
    && (forall n :: n in result ==> Origin(source, result, n, grants))
  }

  ghost predicate Origin(source: map<Text, Value>, result: map<Text, Value>, n: Text, grants: bool)
    requires n in result
    decreases grants, 2, 0
  {
    exists k :: k in source && Snake(k) == n && Arrives(k, source[k], result[n], grants)
  }

  method Translate(key: Text) returns (name: Text)
    ensures name == Snake(key)
  {
    name := [];
    for i := 0 to |key|
      invariant name == Snake(key[..i])
    {
      assert key[..i + 1][..i] == key[..i];
      if IsUpper(key[i]) {
        name := name + [UNDERSCORE];
        name := name + [key[i] + 32];
      } else {
        name := name + [key[i]];
      }
    }
    assert key[..|key|] == key;
  }

  /** The options are visited in no particular order. */
  method Options(source: map<Text, Value>, grants: bool) returns (result: map<Text, Value>)
    ensures Translates(source, result, grants)
    decreases grants
  {
    hide Snake, IsGrant, Arrives, Origin;
    result := map[];
    var left := source.Keys;
    while left != {}
      invariant left <= source.Keys
      invariant Translates(Restrict(source, left), result, grants)
      decreases |left|
    {
      var key :| key in left;
      var name := Translate(key);
      var target := source[key];
      if grants && IsGrant(key) {
        var inner := Options(Fields(source[key]), false);
        target := Struct(inner);
      }
      ArrivesAs(key, source[key], target, grants);
      OneMore(source, left, result, key, target, grants);
      result := result[name := target];
      left := left - {key};
    }
    assert Restrict(source, {}) == source;
  }

  /** The options already visited. */
  ghost function Restrict(source: map<Text, Value>, left: set<Text>): map<Text, Value> {
    map k | k in source && k !in left :: source[k]
  }

  lemma ArrivesAs(key: Text, v: Value, w: Value, grants: bool)
    requires if grants && IsGrant(key) then w.Struct? && Translates(Fields(v), w.fields, false) else w == v
    ensures Arrives(key, v, w, grants)
  {
  }

  lemma OneMore(source: map<Text, Value>, left: set<Text>, result: map<Text, Value>, key: Text, target: Value,
                grants: bool)
    requires key in left && left <= source.Keys
    requires Translates(Restrict(source, left), result, grants)
    requires Arrives(key, source[key], target, grants)
    ensures Translates(Restrict(source, left - {key}), result[Snake(key) := target], grants)
  {
    hide Snake, Arrives;
    var seen, more := Restrict(source, left), Restrict(source, left - {key});
    var next := result[Snake(key) := target];
    assert key in more && more[key] == source[key];
    forall n | n in next ensures Origin(more, next, n, grants) {
      if n != Snake(key) {
        assert Origin(seen, result, n, grants);
        var k :| k in seen && Snake(k) == n && Arrives(k, seen[k], result[n], grants);
        assert k in more && more[k] == seen[k];
      }
    }
  }

  // Nothing is lost

  /** Java's option names, grant fields included. */
  ghost predicate AllCamel(source: map<Text, Value>, grants: bool)
    decreases grants
  {
    && (forall k :: k in source ==> IsCamel(k))
    && (grants ==> forall k :: k in source && IsGrant(k) ==> AllCamel(Fields(source[k]), false))
  }

  /** Every option arrives, under its own name and with its own value; as many arrive as were sent. */
  lemma NothingLost(source: map<Text, Value>, result: map<Text, Value>, grants: bool)
    requires Translates(source, result, grants)
    requires forall k :: k in source ==> IsCamel(k)
    ensures forall k :: k in source ==> Snake(k) in result && Arrives(k, source[k], result[Snake(k)], grants)
    ensures forall n :: n in result ==> Camel(n) in source && Snake(Camel(n)) == n
    ensures |result| == |source|
  {
    hide Snake, Camel, Arrives, IsCamel;
    forall k | k in source ensures Arrives(k, source[k], result[Snake(k)], grants) {
      assert Origin(source, result, Snake(k), grants);
      var j :| j in source && Snake(j) == Snake(k) && Arrives(j, source[j], result[Snake(k)], grants);
      SnakeInjective(j, k);
    }
    forall n | n in result ensures Camel(n) in source && Snake(Camel(n)) == n {
      assert Origin(source, result, n, grants);
      var k :| k in source && Snake(k) == n;
      CamelOfSnake(k);
    }
    SameSize(source.Keys, result.Keys);
  }

  lemma {:induction false} SameSize(keys: set<Text>, names: set<Text>)
    requires forall k :: k in keys ==> IsCamel(k) && Snake(k) in names
    requires forall n :: n in names ==> Camel(n) in keys && Snake(Camel(n)) == n
    ensures |keys| == |names|
    decreases |keys|
  {
    hide Snake, Camel, IsCamel;
    if keys == {} {
      forall n ensures n !in names { }
    } else {
      var k :| k in keys;
      forall j | j in keys - {k} ensures IsCamel(j) && Snake(j) in names - {Snake(k)} {
        if Snake(j) == Snake(k) {
          SnakeInjective(j, k);
        }
      }
      CamelOfSnake(k);
      SameSize(keys - {k}, names - {Snake(k)});
    }
  }

  lemma ArrivesAlike(key: Text, v: Value, w: Value, w': Value, grants: bool)
    requires Arrives(key, v, w, grants) && Arrives(key, v, w', grants)
    requires grants && IsGrant(key) ==> AllCamel(Fields(v), false)
    ensures w == w'
    decreases grants, 0
  {
    hide IsGrant, AllCamel, Translates;
    if grants && IsGrant(key) {
      OrderDoesNotMatter(Fields(v), w.fields, w'.fields, false);
    }
  }

  /** The order in which the options are visited does not show. */
  lemma {:induction false} OrderDoesNotMatter(source: map<Text, Value>, a: map<Text, Value>, b: map<Text, Value>,
                                              grants: bool)
    requires AllCamel(source, grants)
    requires Translates(source, a, grants) && Translates(source, b, grants)
    ensures a == b
    decreases grants, 1
  {
    NothingLost(source, a, grants);
    NothingLost(source, b, grants);
    hide Snake, Camel, Translates, IsCamel, IsGrant, Arrives;
    forall n | n in a ensures n in b && a[n] == b[n] {
      var k := Camel(n);
      assert Snake(k) == n;
      ArrivesAlike(k, source[k], a[n], b[n], grants);
    }
    forall n | n in b ensures n in a {
      assert Snake(Camel(n)) == n;
    }
  }

  /** Of the three grants every field arrives under its own name with its own value; every other option
      arrives with its value as it is. */
  lemma GrantsTranslated(source: map<Text, Value>, result: map<Text, Value>, key: Text)
    requires Translates(source, result, true) && AllCamel(source, true) && key in source
    ensures Snake(key) in result
    ensures key in {Ascii("video"), Ascii("sip"), Ascii("agent")} ==>
      var grant := result[Snake(key)];
      && grant.Struct? && |grant.fields| == |Fields(source[key])|
      && forall k :: k in Fields(source[key]) ==>
           Snake(k) in grant.fields && grant.fields[Snake(k)] == Fields(source[key])[k]
    ensures key !in {Ascii("video"), Ascii("sip"), Ascii("agent")} ==> result[Snake(key)] == source[key]
  {
    GrantKeys(key);
    hide Snake, Ascii, IsGrant;
    NothingLost(source, result, true);
    if IsGrant(key) {
      var inner := Fields(source[key]);
      NothingLost(inner, result[Snake(key)].fields, false);
      forall k | k in inner ensures result[Snake(key)].fields[Snake(k)] == inner[k] {
        assert Arrives(k, inner[k], result[Snake(key)].fields[Snake(k)], false);
      }
    }
  }

  lemma GrantKeys(key: Text)
    ensures IsGrant(key) <==> key in {Ascii("video"), Ascii("sip"), Ascii("agent")}
  {
    hide Ascii;
  }

  lemma AttributesKey()
    ensures Snake(Ascii("attributes")) == Ascii("attributes") && !IsGrant(Ascii("attributes"))
  {
    LowerUnchanged(Ascii("attributes"));
    assert |Ascii("attributes")| == 10;
  }

  /** Attribute keys and values arrive verbatim. */
  lemma AttributesVerbatim(source: map<Text, Value>, result: map<Text, Value>, grants: bool)
    requires Translates(source, result, grants) && (forall k :: k in source ==> IsCamel(k))
    requires Ascii("attributes") in source
    ensures Ascii("attributes") in result && result[Ascii("attributes")] == source[Ascii("attributes")]
  {
    hide Ascii, Snake, Camel, IsCamel, IsGrant, Translates;
    AttributesKey();
    NothingLost(source, result, grants);
  }

  lemma {:induction false} LowerUnchanged(key: Text)
    requires forall i :: 0 <= i < |key| ==> !IsUpper(key[i])
    ensures Snake(key) == key
    decreases |key|
  {
    if key != [] {
      LowerUnchanged(key[..|key| - 1]);
    }
  }
}
