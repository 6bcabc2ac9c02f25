// JSON Pointer (sections 3 and 4 of RFC 6901): how review labels are flattened
// to one path per leaf, and how documentation references are located and
// resolved.
module JsonPointer {
  import opened Basics
  import opened JsonTree

  // A step from a node to a child.
  datatype Token = Key(key: string) | Index(index: nat)

  // str.replace for a pattern of at least one character: left to right,
  // without overlaps.
  function Replace(s: string, pattern: string, replacement: string): string
    requires pattern != ""
  {
    if |s| < |pattern| then s
    else if s[..|pattern|] == pattern then replacement + Replace(s[|pattern|..], pattern, replacement)
    else [s[0]] + Replace(s[1..], pattern, replacement)
  }

  function Escape(segment: string): string {
    Replace(Replace(segment, "~", "~0"), "/", "~1")
  }

  function Unescape(segment: string): string {
    Replace(Replace(segment, "~1", "/"), "~0", "~")
  }

  function Decimal(n: nat): (s: string)
    ensures IsDecimal(s)
  {
    if n < 10 then [('0' as int + n) as char]
    else Decimal(n / 10) + [('0' as int + n % 10) as char]
  }

  predicate IsDecimal(s: string) {
    s != "" && forall i :: 0 <= i < |s| ==> '0' <= s[i] <= '9'
  }

  // int(token) for a token that passed isdecimal().
  function ParseDecimal(s: string): nat
    requires IsDecimal(s)
  {
    var low := s[|s| - 1] as int - '0' as int;
    if |s| == 1 then low else 10 * ParseDecimal(s[..|s| - 1]) + low
  }

  function Segment(t: Token): string {
    match t
    case Key(k) => Escape(k)
    case Index(i) => Decimal(i)
  }

  function Render(ts: seq<Token>): string {
    if ts == [] then "" else "/" + Segment(ts[0]) + Render(ts[1..])
  }

  function Child(v: Json, t: Token): Option<Json> {
    match (v, t)
    case (Obj(m), Key(k)) => if k in m then Some(m[k]) else None
    case (Arr(a), Index(i)) => if i < |a| then Some(a[i]) else None
    case _ => None
  }

  // The node that a token path names, if there is one.
  function At(v: Json, ts: seq<Token>): Option<Json>
    decreases |ts|
  {
    if ts == [] then Some(v)
    else match Child(v, ts[0])
      case Some(c) => At(c, ts[1..])
      case None => None
  }

  predicate IsLeaf(v: Json) {
    match v
    case Obj(m) => m == map[]
    case Arr(a) => a == []
    case _ => true
  }

  function LeafPaths(v: Json): set<seq<Token>> {
    if IsLeaf(v) then {[]}
    else match v
      case Obj(m) => set k, ts | k in m && ts in LeafPaths(m[k]) :: [Key(k)] + ts
      case Arr(a) => set i, ts | 0 <= i < |a| && ts in LeafPaths(a[i]) :: [Index(i)] + ts
      case _ => {}
  }

  // ---- Escaping and decimal numerals lose nothing ----

  function Escaped(c: char): string {
    if c == '~' then "~0" else if c == '/' then "~1" else [c]
  }

  function EscapeAll(s: string): string {
    if s == "" then "" else Escaped(s[0]) + EscapeAll(s[1..])
  }

  // Only the tilde escapes: what Unescape has after its first replacement.
  function TildeEscapeAll(s: string): string {
    if s == "" then "" else (if s[0] == '~' then "~0" else [s[0]]) + TildeEscapeAll(s[1..])
  }

  lemma {:induction false} ReplaceTilde(s: string)
    ensures Replace(s, "~", "~0") == TildeEscapeAll(s)
  {
    if s != "" {
      ReplaceTilde(s[1..]);
      assert s[..1] == [s[0]];
    }
  }

  lemma ReplaceFirst(c: char, rest: string, p: char, replacement: string)
    ensures Replace([c] + rest, [p], replacement)
            == (if c == p then replacement else [c]) + Replace(rest, [p], replacement)
  {
    var t := [c] + rest;
    assert t[1..] == rest && t[..1] == [c];
  }

  lemma {:induction false} ReplaceSlash(s: string)
    ensures Replace(TildeEscapeAll(s), "/", "~1") == EscapeAll(s)
  {
    if s != "" {
      var rest := TildeEscapeAll(s[1..]);
      ReplaceSlash(s[1..]);
      if s[0] == '~' {
        assert "~0" + rest == ['~'] + (['0'] + rest);
        ReplaceFirst('~', ['0'] + rest, '/', "~1");
        ReplaceFirst('0', rest, '/', "~1");
        assert ['~'] + (['0'] + EscapeAll(s[1..])) == "~0" + EscapeAll(s[1..]);
      } else {
        ReplaceFirst(s[0], rest, '/', "~1");
      }
    }
  }

  lemma EscapeIsEscapeAll(s: string)
    ensures Escape(s) == EscapeAll(s)
  {
    ReplaceTilde(s);
    ReplaceSlash(s);
  }

  lemma {:induction false} UnescapeSlash(s: string)
    ensures Replace(EscapeAll(s), "~1", "/") == TildeEscapeAll(s)
  {
    if s != "" {
      UnescapeSlash(s[1..]);
      var rest := EscapeAll(s[1..]);
      var t := Escaped(s[0]) + rest;
      if s[0] == '~' {
        assert t[..2] == "~0" && t[1..] == "0" + rest;
        var u := "0" + rest;
        assert u[1..] == rest;
        assert |u| >= 2 ==> u[..2][0] == '0';
      } else if s[0] == '/' {
        assert t[..2] == "~1" && t[2..] == rest;
      } else {
        assert t[1..] == rest;
        assert |t| >= 2 ==> t[..2][0] == s[0];
      }
    }
  }

  lemma {:induction false} UnescapeTilde(s: string)
    ensures Replace(TildeEscapeAll(s), "~0", "~") == s
  {
    if s != "" {
      UnescapeTilde(s[1..]);
      var rest := TildeEscapeAll(s[1..]);
      if s[0] == '~' {
        var t := "~0" + rest;
        assert t[..2] == "~0" && t[2..] == rest;
      } else {
        var t := [s[0]] + rest;
        assert t[1..] == rest;
        assert |t| >= 2 ==> t[..2][0] == s[0];
      }
      assert s == [s[0]] + s[1..];
    }
  }

  lemma UnescapeEscape(s: string)
    ensures Unescape(Escape(s)) == s
  {
    EscapeIsEscapeAll(s);
    UnescapeSlash(s);
    UnescapeTilde(s);
  }

  lemma {:induction false} ParseDecimalOfDecimal(n: nat)
    ensures ParseDecimal(Decimal(n)) == n
  {
    if n >= 10 {
      ParseDecimalOfDecimal(n / 10);
      var s := Decimal(n);
      assert s[..|s| - 1] == Decimal(n / 10);
    }
  }

  lemma {:induction false} EscapeAllHasNoSlash(s: string)
    ensures '/' !in EscapeAll(s)
  {
    if s != "" {
      EscapeAllHasNoSlash(s[1..]);
    }
  }

  lemma SegmentHasNoSlash(t: Token)
    ensures '/' !in Segment(t)
  {
    if t.Key? {
      EscapeIsEscapeAll(t.key);
      EscapeAllHasNoSlash(t.key);
    }
  }

  lemma {:induction false} SplitAtSlash(a: string, x: string, b: string, y: string)
    requires '/' !in a && '/' !in b
    requires x == "" || x[0] == '/'
    requires y == "" || y[0] == '/'
    requires a + x == b + y
    ensures a == b && x == y
  {
    assert a != "" ==> (a + x)[0] == a[0];
    assert b != "" ==> (b + y)[0] == b[0];
    assert a == "" ==> a + x == x;
    assert b == "" ==> b + y == y;
    if a != "" && b != "" {
      assert (a + x)[1..] == a[1..] + x && (b + y)[1..] == b[1..] + y;
      SplitAtSlash(a[1..], x, b[1..], y);
      assert a == [a[0]] + a[1..] && b == [b[0]] + b[1..];
    }
  }

  lemma RenderHead(ts: seq<Token>)
    ensures Render(ts) == "" || Render(ts)[0] == '/'
    ensures Render(ts) == "" <==> ts == []
  {
  }

  lemma SameSegment(v: Json, a: Token, b: Token)
    requires Child(v, a).Some? && Child(v, b).Some? && Segment(a) == Segment(b)
    ensures a == b
  {
    match v
    case Obj(_) =>
      UnescapeEscape(a.key);
      UnescapeEscape(b.key);
    case Arr(_) =>
      ParseDecimalOfDecimal(a.index);
      ParseDecimalOfDecimal(b.index);
  }

  lemma RenderTail(ts: seq<Token>)
    requires ts != []
    ensures Render(ts) != "" && Render(ts)[1..] == Segment(ts[0]) + Render(ts[1..])
  {
    AfterSlash(Segment(ts[0]), Render(ts[1..]));
  }

  lemma AfterSlash(a: string, b: string)
    ensures ("/" + a + b)[1..] == a + b
  {
  }

  lemma SameRendering(s: seq<Token>, t: seq<Token>)
    requires s != [] && t != [] && Render(s) == Render(t)
    ensures Segment(s[0]) == Segment(t[0]) && Render(s[1..]) == Render(t[1..])
  {
    RenderTail(s);
    RenderTail(t);
    SegmentHasNoSlash(s[0]);
    SegmentHasNoSlash(t[0]);
    RenderHead(s[1..]);
    RenderHead(t[1..]);
    SplitAtSlash(Segment(s[0]), Render(s[1..]), Segment(t[0]), Render(t[1..]));
  }

  // Within one document no two nodes share a rendered path: an object key that
  // looks like an index, or holds a slash or a tilde, cannot collide.
  lemma {:induction false} RenderInjective(v: Json, s: seq<Token>, t: seq<Token>)
    requires At(v, s).Some? && At(v, t).Some? && Render(s) == Render(t)
    ensures s == t
    decreases |s|
  {
    RenderHead(s);
    RenderHead(t);
    if s != [] {
      SameRendering(s, t);
      SameSegment(v, s[0], t[0]);
      RenderInjective(Child(v, s[0]).value, s[1..], t[1..]);
      assert s == [s[0]] + s[1..] && t == [t[0]] + t[1..];
    }
  }

  // ---- Flattening ----

  lemma {:induction false} LeafPathsAreTheLeaves(v: Json, ts: seq<Token>)
    ensures ts in LeafPaths(v) <==> At(v, ts).Some? && IsLeaf(At(v, ts).value)
    decreases |ts|
  {
    if ts != [] {
      assert ts == [ts[0]] + ts[1..];
      match Child(v, ts[0])
      case Some(c) => LeafPathsAreTheLeaves(c, ts[1..]);
      case None =>
    }
  }

  ghost function LeafAt(v: Json, path: string): seq<Token>
    requires exists ts :: ts in LeafPaths(v) && Render(ts) == path
    ensures LeafAt(v, path) in LeafPaths(v) && Render(LeafAt(v, path)) == path
  {
    var ts :| ts in LeafPaths(v) && Render(ts) == path;
    ts
  }

  ghost function PathSet(v: Json): set<string> {
    set ts | ts in LeafPaths(v) :: Render(ts)
  }

  ghost function LeafValue(v: Json, path: string): Json
    requires path in PathSet(v)
  {
    match At(v, LeafAt(v, path))
    case Some(leaf) => leaf
    case None => Null
  }

  // One entry per leaf.
  ghost function Flatten(v: Json): map<string, Json> {
    map path | path in PathSet(v) :: LeafValue(v, path)
  }

  // Nothing is lost: a path is present exactly when it is the rendering of a
  // leaf, the leaf is then unique, and the entry is that leaf.
  lemma FlattenIsLossless(v: Json, path: string, ts: seq<Token>)
    requires ts in LeafPaths(v) && Render(ts) == path
    ensures path in Flatten(v) && At(v, ts) == Some(Flatten(v)[path])
    ensures forall other :: other in LeafPaths(v) && Render(other) == path ==> other == ts
  {
    assert path in PathSet(v);
    LeafPathsAreTheLeaves(v, ts);
    forall other | other in LeafPaths(v) && Render(other) == path ensures other == ts {
      LeafPathsAreTheLeaves(v, other);
      RenderInjective(v, other, ts);
    }
    assert LeafAt(v, path) == ts;
  }

  // The first step of a leaf path is in `done`; `whole` covers every leaf.
  ghost predicate Covered(whole: bool, done: set<Token>, ts: seq<Token>) {
    whole || (ts != [] && ts[0] in done)
  }

  ghost predicate EntryOf(value: Json, path: string, whole: bool, done: set<Token>, p: string, entry: Json) {
    exists ts :: ts in LeafPaths(value) && Covered(whole, done, ts)
                 && p == path + Render(ts) && At(value, ts) == Some(entry)
  }

  // The covered leaves of `value` are filed, and every other entry is as it was.
  ghost predicate Filed(before: map<string, Json>, after: map<string, Json>, value: Json, path: string,
                        whole: bool, done: set<Token>) {
    && before.Keys <= after.Keys
    && (forall ts :: ts in LeafPaths(value) && Covered(whole, done, ts) ==>
          path + Render(ts) in after && At(value, ts) == Some(after[path + Render(ts)]))
    && (forall p :: p in after ==>
          EntryOf(value, path, whole, done, p, after[p]) || (p in before && after[p] == before[p]))
  }

  lemma ChildLeaf(value: Json, path: string, t: Token, ts: seq<Token>)
    requires Child(value, t).Some?
    ensures path + Render([t] + ts) == (path + "/" + Segment(t)) + Render(ts)
    ensures At(value, [t] + ts) == At(Child(value, t).value, ts)
    ensures [t] + ts in LeafPaths(value) <==> ts in LeafPaths(Child(value, t).value)
  {
    assert ([t] + ts)[1..] == ts && ([t] + ts)[0] == t;
    PathThroughChild(path, t, ts);
    LeafPathsAreTheLeaves(value, [t] + ts);
    LeafPathsAreTheLeaves(Child(value, t).value, ts);
  }

  lemma PathThroughChild(path: string, t: Token, ts: seq<Token>)
    ensures path + Render([t] + ts) == (path + "/" + Segment(t)) + Render(ts)
  {
    assert ([t] + ts)[1..] == ts && ([t] + ts)[0] == t;
    JoinThree(path, Segment(t), Render(ts));
  }

  lemma JoinThree(a: string, b: string, c: string)
    ensures a + ("/" + b + c) == (a + "/" + b) + c
  {
  }

  lemma SameEntryPath(value: Json, path: string, s: seq<Token>, t: seq<Token>)
    requires s in LeafPaths(value) && t in LeafPaths(value)
    requires path + Render(s) == path + Render(t)
    ensures s == t
  {
    assert (path + Render(s))[|path|..] == Render(s);
    assert (path + Render(t))[|path|..] == Render(t);
    LeafPathsAreTheLeaves(value, s);
    LeafPathsAreTheLeaves(value, t);
    RenderInjective(value, s, t);
  }

  lemma FiledStep(b: map<string, Json>, m: map<string, Json>, a: map<string, Json>,
                  value: Json, path: string, done: set<Token>, t: Token)
    requires Child(value, t).Some?
    requires Filed(b, m, value, path, false, done)
    requires Filed(m, a, Child(value, t).value, path + "/" + Segment(t), true, {})
    ensures Filed(b, a, value, path, false, done + {t})
  {
    var child, childPath := Child(value, t).value, path + "/" + Segment(t);
    var done' := done + {t};
    forall p | p in a
      ensures EntryOf(value, path, false, done', p, a[p]) || (p in b && a[p] == b[p])
    {
      if EntryOf(child, childPath, true, {}, p, a[p]) {
        var ts :| ts in LeafPaths(child) && p == childPath + Render(ts) && At(child, ts) == Some(a[p]);
        ChildLeaf(value, path, t, ts);
        assert Covered(false, done', [t] + ts);
      } else if EntryOf(value, path, false, done, p, a[p]) {
        var ts :| ts in LeafPaths(value) && Covered(false, done, ts)
                  && p == path + Render(ts) && At(value, ts) == Some(a[p]);
        assert Covered(false, done', ts);
      }
    }
    forall ts | ts in LeafPaths(value) && Covered(false, done', ts)
      ensures path + Render(ts) in a && At(value, ts) == Some(a[path + Render(ts)])
    {
      if ts[0] == t {
        assert ts == [t] + ts[1..];
        ChildLeaf(value, path, t, ts[1..]);
        assert Covered(true, {}, ts[1..]);
      } else {
        assert Covered(false, done, ts);
        var p := path + Render(ts);
        if EntryOf(child, childPath, true, {}, p, a[p]) {
          var us :| us in LeafPaths(child) && p == childPath + Render(us) && At(child, us) == Some(a[p]);
          ChildLeaf(value, path, t, us);
          SameEntryPath(value, path, ts, [t] + us);
        }
      }
    }
  }

  lemma FiledWhole(b: map<string, Json>, a: map<string, Json>, value: Json, path: string, done: set<Token>)
    requires !IsLeaf(value)
    requires forall t :: Child(value, t).Some? ==> t in done
    requires Filed(b, a, value, path, false, done)
    ensures Filed(b, a, value, path, true, {})
  {
    forall ts | ts in LeafPaths(value) ensures Covered(false, done, ts) {
      LeafPathsAreTheLeaves(value, ts);
    }
    forall p | p in a && EntryOf(value, path, false, done, p, a[p])
      ensures EntryOf(value, path, true, {}, p, a[p])
    {
      var ts :| ts in LeafPaths(value) && Covered(false, done, ts)
                && p == path + Render(ts) && At(value, ts) == Some(a[p]);
      assert Covered(true, {}, ts);
    }
  }

  // The source's recursive visit, which fills one dictionary in place.  Keys
  // are taken in an arbitrary order, which includes the sorted one.
  class LabelFlattener {
    var flattened: map<string, Json>

    constructor ()
      ensures flattened == map[]
    {
      flattened := map[];
    }

    method Visit(value: Json, path: string)
      modifies this
      ensures Filed(old(flattened), flattened, value, path, true, {})
      decreases value
    {
      if IsLeaf(value) {
        flattened := flattened[path := value];
        assert path + Render([]) == path;
        assert LeafPaths(value) == {[]} && Covered(true, {}, []);
      } else if value.Obj? {
        var m := value.fields;
        var keys := m.Keys;
        ghost var done: set<Token> := {};
        while keys != {}
          invariant keys <= m.Keys
          invariant forall k :: k in m ==> (Key(k) in done <==> k !in keys)
          invariant Filed(old(flattened), flattened, value, path, false, done)
        {
          var k :| k in keys;
          ghost var before := flattened;
          Visit(m[k], path + "/" + Escape(k));
          FiledStep(old(flattened), before, flattened, value, path, done, Key(k));
          keys, done := keys - {k}, done + {Key(k)};
        }
        FiledWhole(old(flattened), flattened, value, path, done);
      } else {
        var a := value.items;
        var i := 0;
        ghost var done: set<Token> := {};
        while i < |a|
          invariant 0 <= i <= |a|
          invariant forall k: nat :: k < |a| ==> (Index(k) in done <==> k < i)
          invariant Filed(old(flattened), flattened, value, path, false, done)
        {
          ghost var before := flattened;
          Visit(a[i], path + "/" + Decimal(i));
          FiledStep(old(flattened), before, flattened, value, path, done, Index(i));
          i, done := i + 1, done + {Index(i)};
        }
        FiledWhole(old(flattened), flattened, value, path, done);
      }
    }
  }

  predicate AgreeAt(a: map<string, Json>, b: map<string, Json>, path: string) {
    (path in a <==> path in b) && (path in a ==> a[path] == b[path])
  }

  lemma AgreeEverywhere(a: map<string, Json>, b: map<string, Json>)
    requires forall path :: AgreeAt(a, b, path)
    ensures a == b
  {
    assert forall path :: path in a ==> AgreeAt(a, b, path);
    assert forall path :: path in b ==> AgreeAt(a, b, path);
  }

  lemma FiledIsFlatAt(labels: Json, flattened: map<string, Json>, path: string)
    requires Filed(map[], flattened, labels, "", true, {})
    ensures AgreeAt(flattened, Flatten(labels), path)
  {
    if path in flattened {
      FiledEntry(labels, flattened, path);
    } else if path in PathSet(labels) {
      FiledLeaf(labels, flattened, path);
    }
  }

  lemma FiledIsFlatten(labels: Json, flattened: map<string, Json>)
    requires Filed(map[], flattened, labels, "", true, {})
    ensures flattened == Flatten(labels)
  {
    forall path ensures AgreeAt(flattened, Flatten(labels), path) {
      FiledIsFlatAt(labels, flattened, path);
    }
    AgreeEverywhere(flattened, Flatten(labels));
  }

  lemma FiledLeaf(labels: Json, flattened: map<string, Json>, path: string)
    requires Filed(map[], flattened, labels, "", true, {}) && path in PathSet(labels)
    ensures path in flattened
  {
    var ts := LeafAt(labels, path);
    assert Covered(true, {}, ts) && "" + Render(ts) == path;
  }

  lemma FiledEntry(labels: Json, flattened: map<string, Json>, path: string)
    requires Filed(map[], flattened, labels, "", true, {}) && path in flattened
    ensures path in PathSet(labels) && flattened[path] == Flatten(labels)[path]
  {
    assert EntryOf(labels, "", true, {}, path, flattened[path]);
    EntryIsFlat(labels, path, flattened[path]);
  }

  lemma EntryIsFlat(labels: Json, path: string, entry: Json)
    requires EntryOf(labels, "", true, {}, path, entry)
    ensures path in PathSet(labels) && entry == Flatten(labels)[path]
  {
    var ts :| ts in LeafPaths(labels) && path == "" + Render(ts) && At(labels, ts) == Some(entry);
    assert path == Render(ts);
    FlattenIsLossless(labels, path, ts);
  }

  method FlattenLabels(labels: Json) returns (flattened: map<string, Json>)
    ensures flattened == Flatten(labels)
  {
    var flattener := new LabelFlattener();
    flattener.Visit(labels, "");
    flattened := flattener.flattened;
    FiledIsFlatten(labels, flattened);
  }

  // ---- Locating and resolving references ----

  function Split(s: string): (parts: seq<string>)
    ensures parts != []
  {
    if s == "" then [""]
    else
      var rest := Split(s[1..]);
      if s[0] == '/' then [""] + rest else [[s[0]] + rest[0]] + rest[1..]
  }

  datatype PointerError = NotRootLocal | MissingKey | NotAnIndex | OutOfRange | ScalarValue

  function StepInto(current: Json, escapedToken: string): Result<Json, PointerError> {
    var token := Unescape(escapedToken);
    match current
    case Obj(m) => if token in m then Ok(m[token]) else Err(MissingKey)
    case Arr(a) =>
      if !IsDecimal(token) then Err(NotAnIndex)
      else if ParseDecimal(token) >= |a| then Err(OutOfRange)
      else Ok(a[ParseDecimal(token)])
    case _ => Err(ScalarValue)
  }

  function Follow(current: Json, parts: seq<string>): Result<Json, PointerError> {
    if parts == [] then Ok(current)
    else match StepInto(current, parts[0])
      case Ok(next) => Follow(next, parts[1..])
      case Err(e) => Err(e)
  }

  // `unquote` is percent-decoding, which is not part of this model.
  function Resolve(unquote: string -> string, document: Json, reference: string): Result<Json, PointerError> {
    if reference == "#" then Ok(document)
    else if !("#/" <= reference) then Err(NotRootLocal)
    else
      var pointer := unquote(reference[1..]);
      Follow(document, Split(if pointer == "" then "" else pointer[1..]))
  }

  method ResolveJsonPointer(unquote: string -> string, document: Json, reference: string)
    returns (r: Result<Json, PointerError>)
    ensures r == Resolve(unquote, document, reference)
  {
    if reference == "#" {
      return Ok(document);
    }
    if !("#/" <= reference) {
      return Err(NotRootLocal);
    }
    var pointer := unquote(reference[1..]);
    var parts := Split(if pointer == "" then "" else pointer[1..]);
    var current := document;
    for i := 0 to |parts|
      invariant Follow(current, parts[i..]) == Follow(document, parts)
    {
      var next := StepInto(current, parts[i]);
      assert parts[i..][1..] == parts[i + 1..];
      if next.Err? {
        return Err(next.error);
      }
      current := next.value;
    }
    return Ok(current);
  }

  function WalkRefs(value: Json, location: string): set<(string, Json)> {
    match value
    case Obj(m) =>
      (set k | k in m && k == "$ref" :: (location + "/" + Escape(k), m[k]))
      + (set k, found | k in m && found in WalkRefs(m[k], location + "/" + Escape(k)) :: found)
    case Arr(a) =>
      set i, found | 0 <= i < |a| && found in WalkRefs(a[i], location + "/" + Decimal(i)) :: found
    case _ => {}
  }

  // Exactly the "$ref" members are yielded, each at the location of its token path.
  ghost predicate RefAt(value: Json, location: string, found: (string, Json), ts: seq<Token>) {
    ts != [] && ts[|ts| - 1] == Key("$ref") && At(value, ts) == Some(found.1) && found.0 == location + Render(ts)
  }

  lemma RefThroughChild(value: Json, location: string, found: (string, Json), t: Token, ts: seq<Token>)
    requires Child(value, t).Some?
    ensures ts == [] && t == Key("$ref") && found == (location + "/" + Segment(t), Child(value, t).value)
            ==> RefAt(value, location, found, [t])
    ensures ts != [] ==>
              (RefAt(value, location, found, [t] + ts)
               <==> RefAt(Child(value, t).value, location + "/" + Segment(t), found, ts))
  {
    ChildLeaf(value, location, t, ts);
    if ts == [] {
      assert [t] + ts == [t];
    } else {
      assert ([t] + ts)[|ts|] == ts[|ts| - 1];
    }
  }

  lemma {:induction false} WalkRefsYieldsRefs(value: Json, location: string, found: (string, Json)) returns (ts: seq<Token>)
    requires found in WalkRefs(value, location)
    ensures RefAt(value, location, found, ts)
    decreases value
  {
    match value
    case Obj(m) =>
      if "$ref" in m && found == (location + "/" + Escape("$ref"), m["$ref"]) {
        ts := [Key("$ref")];
        RefThroughChild(value, location, found, Key("$ref"), []);
      } else {
        var k :| k in m && found in WalkRefs(m[k], location + "/" + Escape(k));
        var rest := WalkRefsYieldsRefs(m[k], location + "/" + Escape(k), found);
        ts := [Key(k)] + rest;
        RefThroughChild(value, location, found, Key(k), rest);
      }
    case Arr(a) =>
      var i :| 0 <= i < |a| && found in WalkRefs(a[i], location + "/" + Decimal(i));
      var rest := WalkRefsYieldsRefs(a[i], location + "/" + Decimal(i), found);
      ts := [Index(i)] + rest;
      RefThroughChild(value, location, found, Index(i), rest);
    case _ =>
  }

  lemma RefsOfChild(value: Json, location: string, t: Token)
    requires Child(value, t).Some?
    ensures WalkRefs(Child(value, t).value, location + "/" + Segment(t)) <= WalkRefs(value, location)
    ensures t == Key("$ref") ==> (location + "/" + Segment(t), Child(value, t).value) in WalkRefs(value, location)
  {
  }

  lemma {:induction false} WalkRefsYieldsAllRefs(value: Json, location: string, found: (string, Json), ts: seq<Token>)
    requires RefAt(value, location, found, ts)
    ensures found in WalkRefs(value, location)
    decreases |ts|
  {
    assert ts == [ts[0]] + ts[1..];
    RefsOfChild(value, location, ts[0]);
    if |ts| == 1 {
      ChildLeaf(value, location, ts[0], ts[1..]);
      assert Render(ts[1..]) == "";
      assert found.0 == location + "/" + Segment(ts[0]);
    } else {
      RefThroughChild(value, location, found, ts[0], ts[1..]);
      WalkRefsYieldsAllRefs(Child(value, ts[0]).value, location + "/" + Segment(ts[0]), found, ts[1..]);
    }
  }

  predicate PercentFree(v: Json) {
    match v
    case Obj(m) => forall k | k in m :: '%' !in k && PercentFree(m[k])
    case Arr(a) => forall i :: 0 <= i < |a| ==> PercentFree(a[i])
    case _ => true
  }

  // Percent-decoding leaves text without a percent sign alone.
  ghost predicate DecodesOnlyPercents(unquote: string -> string) {
    forall s :: '%' !in s ==> unquote(s) == s
  }

  lemma {:induction false} SplitSegment(segment: string, rest: string)
    requires '/' !in segment
    requires rest == "" || rest[0] == '/'
    ensures Split(segment + rest) == [segment] + if rest == "" then [] else Split(rest[1..])
  {
    if segment == "" {
      assert segment + rest == rest;
    } else {
      SplitSegment(segment[1..], rest);
      assert (segment + rest)[1..] == segment[1..] + rest;
      assert segment == [segment[0]] + segment[1..];
    }
  }

  lemma SplitRendered(ts: seq<Token>)
    requires ts != []
    ensures Split(Render(ts)[1..]) == [Segment(ts[0])] + if ts[1..] == [] then [] else Split(Render(ts[1..])[1..])
  {
    RenderTail(ts);
    SegmentHasNoSlash(ts[0]);
    RenderHead(ts[1..]);
    SplitSegment(Segment(ts[0]), Render(ts[1..]));
  }

  lemma {:induction false} FollowRendered(v: Json, ts: seq<Token>)
    requires ts != [] && At(v, ts).Some?
    ensures Follow(v, Split(Render(ts)[1..])) == Ok(At(v, ts).value)
    decreases |ts|
  {
    SplitRendered(ts);
    var parts := Split(Render(ts)[1..]);
    var child := ChildOf(v, ts);
    assert Follow(v, parts) == Follow(child, parts[1..]);
    if ts[1..] != [] {
      FollowRendered(child, ts[1..]);
      assert parts[1..] == Split(Render(ts[1..])[1..]);
    } else {
      assert parts[1..] == [];
    }
  }

  lemma ChildOf(v: Json, ts: seq<Token>) returns (child: Json)
    requires ts != [] && At(v, ts).Some?
    ensures StepInto(v, Segment(ts[0])) == Ok(child)
    ensures At(v, ts) == At(child, ts[1..])
    ensures PercentFree(v) ==> PercentFree(child) && '%' !in Segment(ts[0])
  {
    match ts[0]
    case Key(k) =>
      UnescapeEscape(k);
      child := v.fields[k];
      EscapeIsEscapeAll(k);
      if PercentFree(v) { EscapeAllPercentFree(k); }
    case Index(i) =>
      ParseDecimalOfDecimal(i);
      UnescapeDigits(Decimal(i));
      child := v.items[i];
  }

  lemma {:induction false} EscapeAllPercentFree(s: string)
    requires '%' !in s
    ensures '%' !in EscapeAll(s)
  {
    if s != "" {
      EscapeAllPercentFree(s[1..]);
    }
  }

  lemma {:induction false} ReplaceAbsent(s: string, pattern: string, replacement: string)
    requires pattern != "" && pattern[0] !in s
    ensures Replace(s, pattern, replacement) == s
  {
    if |s| >= |pattern| {
      assert s[..|pattern|][0] == s[0];
      ReplaceAbsent(s[1..], pattern, replacement);
    }
  }

  lemma UnescapeDigits(s: string)
    requires IsDecimal(s)
    ensures Unescape(s) == s
  {
    ReplaceAbsent(s, "~1", "/");
    ReplaceAbsent(s, "~0", "~");
  }

  lemma {:induction false} RenderPercentFree(v: Json, ts: seq<Token>)
    requires At(v, ts).Some? && PercentFree(v)
    ensures '%' !in Render(ts)
    decreases |ts|
  {
    if ts != [] {
      var child := ChildOf(v, ts);
      RenderPercentFree(child, ts[1..]);
    }
  }

  // A pointer that percent-decoding leaves alone leads back to its node.
  lemma ResolveUndecoded(unquote: string -> string, document: Json, ts: seq<Token>)
    requires At(document, ts).Some? && unquote(Render(ts)) == Render(ts)
    ensures Resolve(unquote, document, "#" + Render(ts)) == Ok(At(document, ts).value)
  {
    var reference := "#" + Render(ts);
    assert reference[1..] == Render(ts);
    RenderHead(ts);
    if ts != [] {
      FollowRendered(document, ts);
      assert "#/" <= reference;
    }
  }

  lemma ResolveRendered(unquote: string -> string, document: Json, ts: seq<Token>)
    requires DecodesOnlyPercents(unquote) && PercentFree(document) && At(document, ts).Some?
    ensures Resolve(unquote, document, "#" + Render(ts)) == Ok(At(document, ts).value)
  {
    RenderPercentFree(document, ts);
    ResolveUndecoded(unquote, document, ts);
  }

  // Every reference location that is reported resolves to the reported value.
  lemma LocationsResolve(unquote: string -> string, document: Json, found: (string, Json))
    requires DecodesOnlyPercents(unquote) && PercentFree(document)
    requires found in WalkRefs(document, "#")
    ensures Resolve(unquote, document, found.0) == Ok(found.1)
  {
    var ts := WalkRefsYieldsRefs(document, "#", found);
    ResolveRendered(unquote, document, ts);
  }

  // A flattened review label can be addressed back through the same pointers.
  lemma FlattenedPathsResolve(unquote: string -> string, labels: Json, path: string)
    requires DecodesOnlyPercents(unquote) && PercentFree(labels) && path in Flatten(labels)
    ensures Resolve(unquote, labels, "#" + path) == Ok(Flatten(labels)[path])
  {
    var ts := LeafAt(labels, path);
    LeafPathsAreTheLeaves(labels, ts);
    ResolveRendered(unquote, labels, ts);
  }
}
