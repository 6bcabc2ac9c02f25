// Redaction of stored execution evidence.  URL parsing, which the source takes
// from its library, is a codec between texts and their parts.
module Redaction {
  import opened Basics
  import opened JsonTree
  import opened JsonPointer

  type Query = seq<(string, string)>

  // What remains of a URL once its fragment is dropped.
  datatype Parts = Parts(scheme: string, netloc: string, path: string, query: Query)

  // `parse` fails as the library does, and also tells whether the URL names a
  // user or password.  `redacted` replaces every secret.
  datatype Env = Env(
    sensitive: string -> bool, parse: string -> Option<(Parts, bool)>, unparse: Parts -> string,
    urlKey: string, redacted: string)

  // What is shown of a URL reads back as the same parts, without a user.
  predicate ReadsBack(url: string, env: Env) {
    match Shown(url, env)
    case None => true
    case Some(p) => env.parse(env.unparse(p)) == Some((p, false))
  }

  // Only what is shown has to: a URL that is not parsed, or names a user, is
  // hidden and may be anything.
  lemma ReadsBackExactly(url: string, env: Env)
    ensures ReadsBack(url, env) <==>
              env.parse(url).Some? && !env.parse(url).value.1 ==>
                var p := env.parse(url).value.0;
                var shown := p.(query := RedactQuery(p.query, env));
                env.parse(env.unparse(shown)) == Some((shown, false))
  {
  }

  // The replacement text, read as a URL, is just itself.
  predicate PlainReplacement(env: Env) {
    && env.parse(env.redacted).Some? && !env.parse(env.redacted).value.1
    && env.parse(env.redacted).value.0.query == []
    && env.unparse(env.parse(env.redacted).value.0) == env.redacted
    && !env.sensitive(env.urlKey)
  }

  predicate ReadableField(key: string, item: Json, env: Env)
    decreases item, 1
  {
    env.sensitive(key) || if key == env.urlKey && item.Str? then ReadsBack(item.s, env) else Readable(item, env)
  }

  // Every URL that is shown in the tree reads back.
  predicate Readable(v: Json, env: Env)
    decreases v, 0
  {
    match v
    case Obj(m) => forall key | key in m :: ReadableField(key, m[key], env)
    case Arr(x) => SensitivePair(x, env) || forall i | 0 <= i < |x| :: Readable(x[i], env)
    case _ => true
  }

  // ---- Sensitive names ----

  predicate OccursAt(s: string, part: string, i: nat) {
    i + |part| <= |s| && s[i..i + |part|] == part
  }

  predicate Contains(s: string, part: string) {
    exists i :: 0 <= i <= |s| && OccursAt(s, part, i)
  }

  function Dashed(s: string): (r: string)
    ensures |r| == |s|
    ensures forall i :: 0 <= i < |s| ==> r[i] == if s[i] == '_' then '-' else s[i]
  {
    if s == "" then "" else Dashed(s[..|s| - 1]) + [if s[|s| - 1] == '_' then '-' else s[|s| - 1]]
  }

  predicate IsSensitiveName(name: string, lower: string -> string, words: set<string>) {
    exists w :: w in words && Contains(Dashed(lower(name)), w)
  }

  const SENSITIVE_NAMES := {"authorization", "cookie", "password", "secret", "set-cookie", "token"}

  // A name is sensitive exactly when its lower-case form holds a sensitive word
  // somewhere, an underscore counting as a dash.
  lemma SensitiveExactly(name: string, lower: string -> string, words: set<string>)
    requires forall w :: w in words ==> '_' !in w
    ensures IsSensitiveName(name, lower, words) <==>
              exists w, i :: w in words && 0 <= i && i + |w| <= |lower(name)| && Spelled(lower(name), i, w)
  {
    var text := lower(name);
    forall w, i | w in words && 0 <= i && i + |w| <= |text| ensures OccursAt(Dashed(text), w, i) <==> Spelled(text, i, w) {
      SpelledOccurs(text, i, w);
    }
  }

  predicate Spelled(text: string, i: nat, w: string)
    requires i + |w| <= |text|
  {
    forall k :: 0 <= k < |w| ==> text[i + k] == w[k] || (text[i + k] == '_' && w[k] == '-')
  }

  lemma SpelledOccurs(text: string, i: nat, w: string)
    requires i + |w| <= |text| && '_' !in w
    ensures OccursAt(Dashed(text), w, i) <==> Spelled(text, i, w)
  {
    SpelledAt(text, i, w);
    SliceEquals(Dashed(text), i, w);
  }

  lemma SliceEquals<T>(s: seq<T>, i: nat, w: seq<T>)
    requires i + |w| <= |s|
    ensures s[i..i + |w|] == w <==> forall k :: 0 <= k < |w| ==> s[i + k] == w[k]
  {
    var part := s[i..i + |w|];
    if part == w {
      forall k | 0 <= k < |w| ensures s[i + k] == w[k] { assert part[k] == w[k]; }
    }
  }

  lemma SpelledAt(text: string, i: nat, w: string)
    requires i + |w| <= |text| && '_' !in w
    ensures Spelled(text, i, w) <==> forall k :: 0 <= k < |w| ==> Dashed(text)[i + k] == w[k]
  {
    var dashed := Dashed(text);
    forall k | 0 <= k < |w|
      ensures dashed[i + k] == w[k] <==> text[i + k] == w[k] || (text[i + k] == '_' && w[k] == '-')
    {
      assert dashed[i + k] == if text[i + k] == '_' then '-' else text[i + k];
      assert w[k] in w;
    }
  }

  // The two letters that str.lower() writes for a capital sigma.
  predicate IsSigma(c: char) {
    c as int in {0x3c2, 0x3c3}
  }

  predicate SameButSigmas(a: string, b: string) {
    |a| == |b| && forall i :: 0 <= i < |a| ==> a[i] == b[i] || (IsSigma(a[i]) && IsSigma(b[i]))
  }

  function LowerEach(s: string, low: char -> string): string {
    if s == "" then "" else LowerEach(s[..|s| - 1], low) + low(s[|s| - 1])
  }

  // str.lower() takes one character at a time; only which sigma it writes
  // depends on what surrounds the letter.
  ghost predicate LowersEach(lower: string -> string, low: char -> string) {
    forall s :: SameButSigmas(lower(s), LowerEach(s, low))
  }

  lemma {:induction false} LowerEachConcat(a: string, b: string, low: char -> string)
    ensures LowerEach(a + b, low) == LowerEach(a, low) + LowerEach(b, low)
  {
    if b == "" {
      assert a + b == a;
    } else {
      var n := |b| - 1;
      LowerEachConcat(a, b[..n], low);
      var (x, y, z) := (LowerEach(a, low), LowerEach(b[..n], low), low(b[n]));
      assert (a + b)[..|a + b| - 1] == a + b[..n] && (a + b)[|a + b| - 1] == b[n];
      assert LowerEach(a + b, low) == (x + y) + z;
      assert LowerEach(b, low) == y + z;
      assert (x + y) + z == x + (y + z);
    }
  }

  lemma ContainsSimilar(a: string, b: string, part: string)
    requires SameButSigmas(a, b) && Contains(Dashed(a), part)
    requires forall c :: c in part ==> !IsSigma(c)
    ensures Contains(Dashed(b), part)
  {
    var i :| 0 <= i <= |a| && OccursAt(Dashed(a), part, i);
    var (found, other) := (Dashed(a)[i..i + |part|], Dashed(b)[i..i + |part|]);
    forall k | 0 <= k < |part| ensures other[k] == part[k] {
      assert found[k] == part[k] && part[k] in part;
    }
    assert OccursAt(Dashed(b), part, i);
  }

  lemma ContainsWithin(a: string, b: string, c: string, part: string)
    requires Contains(Dashed(b), part)
    ensures Contains(Dashed(a + b + c), part)
  {
    var i :| 0 <= i <= |b| && OccursAt(Dashed(b), part, i);
    assert Dashed(a + b + c)[|a| + i..|a| + i + |part|] == Dashed(b)[i..i + |part|];
    assert OccursAt(Dashed(a + b + c), part, |a| + i);
  }

  // A name that contains a sensitive name is sensitive, whatever surrounds it.
  lemma LongerNamesStaySensitive(before: string, name: string, after: string,
                                 lower: string -> string, low: char -> string, words: set<string>)
    requires LowersEach(lower, low) && forall w, c :: w in words && c in w ==> !IsSigma(c)
    requires IsSensitiveName(name, lower, words)
    ensures IsSensitiveName(before + name + after, lower, words)
  {
    var w :| w in words && Contains(Dashed(lower(name)), w);
    var longer := before + name + after;
    ContainsSimilar(lower(name), LowerEach(name, low), w);
    ContainsWithin(LowerEach(before, low), LowerEach(name, low), LowerEach(after, low), w);
    LowerEachConcat(before + name, after, low);
    LowerEachConcat(before, name, low);
    forall i | 0 <= i < |lower(longer)|
      ensures LowerEach(longer, low)[i] == lower(longer)[i] || (IsSigma(LowerEach(longer, low)[i]) && IsSigma(lower(longer)[i]))
    {
      assert SameButSigmas(lower(longer), LowerEach(longer, low));
    }
    ContainsSimilar(LowerEach(longer, low), lower(longer), w);
  }

  // ---- Redaction ----

  function RedactQuery(query: Query, env: Env): (r: Query)
    ensures |r| == |query|
    ensures forall i :: 0 <= i < |r| ==>
              r[i] == (query[i].0, if env.sensitive(query[i].0) then env.redacted else query[i].1)
  {
    if query == [] then []
    else
      var (name, value) := query[|query| - 1];
      RedactQuery(query[..|query| - 1], env) + [(name, if env.sensitive(name) then env.redacted else value)]
  }

  // The parts of a URL that is shown; None when it is replaced as a whole.
  function Shown(url: string, env: Env): Option<Parts> {
    match env.parse(url)
    case None => None
    case Some((p, hasUser)) => if hasUser then None else Some(p.(query := RedactQuery(p.query, env)))
  }

  function RedactUrl(url: string, env: Env): string {
    match Shown(url, env)
    case None => env.redacted
    case Some(p) => env.unparse(p)
  }

  predicate SensitivePair(items: seq<Json>, env: Env) {
    |items| == 2 && items[0].Str? && env.sensitive(items[0].s)
  }

  function RedactField(key: string, item: Json, env: Env): Json
    decreases item, 1
  {
    if env.sensitive(key) then Str(env.redacted)
    else if key == env.urlKey && item.Str? then Str(RedactUrl(item.s, env))
    else Redact(item, env)
  }

  function Redact(v: Json, env: Env): Json
    decreases v, 0
  {
    match v
    case Obj(fields) => Obj(map key | key in fields :: RedactField(key, fields[key], env))
    case Arr(items) =>
      if SensitivePair(items, env) then Arr([items[0], Str(env.redacted)])
      else Arr(seq(|items|, i requires 0 <= i < |items| => Redact(items[i], env)))
    case _ => v
  }

  method RedactedValue(v: Json, env: Env) returns (r: Json)
    ensures r == Redact(v, env)
    decreases v, 1
  {
    match v
    case Obj(fields) =>
      var rendered := RedactedMapping(fields, v, env);
      return Obj(rendered);
    case Arr(items) =>
      if SensitivePair(items, env) { return Arr([items[0], Str(env.redacted)]); }
      var out: seq<Json> := [];
      var i := 0;
      while i < |items|
        invariant 0 <= i <= |items| && |out| == i
        invariant forall k :: 0 <= k < i ==> out[k] == Redact(items[k], env)
      {
        var item := RedactedValue(items[i], env);
        out := out + [item];
        i := i + 1;
      }
      return Arr(out);
    case _ => return v;
  }

  method RedactedField(key: string, item: Json, env: Env) returns (r: Json)
    ensures r == RedactField(key, item, env)
    decreases item, 2
  {
    if env.sensitive(key) {
      r := Str(env.redacted);
    } else if key == env.urlKey && item.Str? {
      r := Str(RedactUrl(item.s, env));
    } else {
      r := RedactedValue(item, env);
    }
  }

  // Every field of the mapping has been rendered.
  ghost predicate Rendered(fields: map<string, Json>, rendered: map<string, Json>, keys: set<string>, env: Env) {
    && keys <= fields.Keys && rendered.Keys == fields.Keys - keys
    && forall key :: key in rendered ==> rendered[key] == RedactField(key, fields[key], env)
  }

  lemma RenderedNext(fields: map<string, Json>, rendered: map<string, Json>, keys: set<string>, key: string, env: Env)
    requires Rendered(fields, rendered, keys, env) && key in keys
    ensures Rendered(fields, rendered[key := RedactField(key, fields[key], env)], keys - {key}, env)
  {
  }

  lemma RenderedIsRedacted(fields: map<string, Json>, rendered: map<string, Json>, env: Env)
    requires Rendered(fields, rendered, {}, env)
    ensures Obj(rendered) == Redact(Obj(fields), env)
  {
    assert rendered == Redact(Obj(fields), env).fields;
  }

  method RedactedMapping(fields: map<string, Json>, ghost whole: Json, env: Env) returns (rendered: map<string, Json>)
    requires whole == Obj(fields)
    ensures Obj(rendered) == Redact(Obj(fields), env)
    decreases whole, 0
  {
    rendered := map[];
    var keys := fields.Keys;
    while keys != {}
      invariant Rendered(fields, rendered, keys, env)
      decreases |keys|
    {
      var key :| key in keys;
      RenderedNext(fields, rendered, keys, key, env);
      var item := RedactedField(key, fields[key], env);
      rendered := rendered[key := item];
      keys := keys - {key};
    }
    RenderedIsRedacted(fields, rendered, env);
  }

  // The projection of the assertion results: a list of mappings or nothing.
  method AssertionResults(parsed: Json, env: Env) returns (r: Option<seq<Json>>)
    ensures r.Some? <==> parsed.Arr? && forall i :: 0 <= i < |parsed.items| ==> parsed.items[i].Obj?
    ensures r.Some? ==> |r.value| == |parsed.items|
                        && forall i :: 0 <= i < |r.value| ==> r.value[i] == Redact(parsed.items[i], env)
  {
    if !parsed.Arr? { return None; }
    var assertions: seq<Json> := [];
    var i := 0;
    while i < |parsed.items|
      invariant 0 <= i <= |parsed.items| && |assertions| == i
      invariant forall k :: 0 <= k < i ==> parsed.items[k].Obj? && assertions[k] == Redact(parsed.items[k], env)
    {
      var item := parsed.items[i];
      if !item.Obj? { return None; }
      var rendered := RedactedMapping(item.fields, item, env);
      assertions := assertions + [Obj(rendered)];
      i := i + 1;
    }
    return Some(assertions);
  }

  // ---- What redaction hides, exactly ----

  predicate SameQuery(a: Query, b: Query, env: Env) {
    && |a| == |b|
    && forall i :: 0 <= i < |a| ==> a[i].0 == b[i].0 && (env.sensitive(a[i].0) || a[i].1 == b[i].1)
  }

  predicate SameParts(a: Parts, b: Parts, env: Env) {
    a.scheme == b.scheme && a.netloc == b.netloc && a.path == b.path && SameQuery(a.query, b.query, env)
  }

  predicate Opaque(url: string, env: Env) {
    env.parse(url).None? || env.parse(url).value.1
  }

  // Read as a URL, the text is the replacement text, but for a fragment.
  predicate LooksRedacted(url: string, env: Env) {
    !Opaque(url, env) && env.parse(env.redacted).Some? && env.parse(url).value.0 == env.parse(env.redacted).value.0
  }

  // URLs that differ in nothing but sensitive query values and fragments, or
  // that are both replaced as a whole.
  predicate SameUrl(a: string, b: string, env: Env) {
    || ((Opaque(a, env) || LooksRedacted(a, env)) && (Opaque(b, env) || LooksRedacted(b, env)))
    || (!Opaque(a, env) && !Opaque(b, env) && SameParts(env.parse(a).value.0, env.parse(b).value.0, env))
  }

  predicate SameFieldButSecrets(key: string, a: Json, b: Json, env: Env)
    decreases a, 1
  {
    if env.sensitive(key) then true
    else if key == env.urlKey && a.Str? && b.Str? then SameUrl(a.s, b.s, env)
    else SameButSecrets(a, b, env)
  }

  // Trees that differ in nothing but secrets.
  predicate SameButSecrets(a: Json, b: Json, env: Env)
    decreases a, 0
  {
    match (a, b)
    case (Obj(m), Obj(n)) =>
      m.Keys == n.Keys && forall key | key in m :: SameFieldButSecrets(key, m[key], n[key], env)
    case (Arr(x), Arr(y)) =>
      && |x| == |y| && SensitivePair(x, env) == SensitivePair(y, env)
      && (if SensitivePair(x, env) then x[0] == y[0]
          else forall i | 0 <= i < |x| :: SameButSecrets(x[i], y[i], env))
    case _ => a == b
  }

  lemma RedactedQueriesAgree(a: Query, b: Query, env: Env)
    ensures RedactQuery(a, env) == RedactQuery(b, env) <==> SameQuery(a, b, env)
  {
    if RedactQuery(a, env) == RedactQuery(b, env) {
      forall i | 0 <= i < |a| ensures a[i].0 == b[i].0 && (env.sensitive(a[i].0) || a[i].1 == b[i].1) {
        assert RedactQuery(a, env)[i] == RedactQuery(b, env)[i];
      }
    }
  }

  // URLs that are shown alike have the same parts.
  lemma ShownInjective(a: string, b: string, env: Env)
    requires Shown(a, env).Some? && Shown(b, env).Some? && ReadsBack(a, env) && ReadsBack(b, env)
    ensures RedactUrl(a, env) == RedactUrl(b, env) <==> Shown(a, env) == Shown(b, env)
  {
  }

  lemma RedactedUrlsAgree(a: string, b: string, env: Env)
    requires PlainReplacement(env) && ReadsBack(a, env) && ReadsBack(b, env)
    ensures RedactUrl(a, env) == RedactUrl(b, env) <==> SameUrl(a, b, env)
  {
    PlainUrl(a, env);
    PlainUrl(b, env);
    if !Opaque(a, env) && !Opaque(b, env) {
      var (p, q) := (env.parse(a).value.0, env.parse(b).value.0);
      ShownInjective(a, b, env);
      RedactedQueriesAgree(p.query, q.query, env);
    }
  }

  // A URL that is shown reads like the replacement only if it is that text.
  lemma PlainUrl(a: string, env: Env)
    requires PlainReplacement(env) && ReadsBack(a, env)
    ensures RedactUrl(a, env) == env.redacted <==> Opaque(a, env) || LooksRedacted(a, env)
  {
    if !Opaque(a, env) {
      var p := env.parse(a).value.0;
      assert RedactQuery([], env) == [];
      ShownInjective(a, env.redacted, env);
      assert |RedactQuery(p.query, env)| == |p.query|;
    }
  }

  lemma {:induction false} RedactedFieldsAgree(key: string, a: Json, b: Json, env: Env)
    requires PlainReplacement(env) && ReadableField(key, a, env) && ReadableField(key, b, env)
    ensures RedactField(key, a, env) == RedactField(key, b, env) <==> SameFieldButSecrets(key, a, b, env)
    decreases a, 1
  {
    if !env.sensitive(key) {
      if key == env.urlKey && a.Str? && b.Str? {
        RedactedUrlsAgree(a.s, b.s, env);
      } else {
        RedactedTreesAgree(a, b, env);
      }
    }
  }

  // Two trees are redacted to the same tree if and only if they differ in
  // nothing but secrets: values under sensitive names, second elements of
  // sensitive pairs, sensitive query values, and URLs hidden as a whole.
  lemma {:induction false} RedactedTreesAgree(a: Json, b: Json, env: Env)
    requires PlainReplacement(env) && Readable(a, env) && Readable(b, env)
    ensures Redact(a, env) == Redact(b, env) <==> SameButSecrets(a, b, env)
    decreases a, 0
  {
    match (a, b)
    case (Obj(m), Obj(n)) => RedactedMappingsAgree(m, n, a, env);
    case (Arr(x), Arr(y)) => RedactedListsAgree(x, y, a, env);
    case _ =>
  }

  lemma {:induction false} RedactedMappingsAgree(m: map<string, Json>, n: map<string, Json>, whole: Json, env: Env)
    requires PlainReplacement(env) && Readable(Obj(m), env) && Readable(Obj(n), env) && whole == Obj(m)
    ensures Redact(Obj(m), env) == Redact(Obj(n), env) <==> SameButSecrets(Obj(m), Obj(n), env)
    decreases whole, 0, 0
  {
    var (p, q) := (Redact(Obj(m), env).fields, Redact(Obj(n), env).fields);
    assert p.Keys == m.Keys && q.Keys == n.Keys;
    forall key | key in m && key in n
      ensures p[key] == q[key] <==> SameFieldButSecrets(key, m[key], n[key], env)
    {
      RedactedFieldsAgree(key, m[key], n[key], env);
    }
    if SameButSecrets(Obj(m), Obj(n), env) {
      assert p == q;
    }
  }

  lemma {:induction false} RedactedListsAgree(x: seq<Json>, y: seq<Json>, whole: Json, env: Env)
    requires PlainReplacement(env) && Readable(Arr(x), env) && Readable(Arr(y), env) && whole == Arr(x)
    ensures Redact(Arr(x), env) == Redact(Arr(y), env) <==> SameButSecrets(Arr(x), Arr(y), env)
    decreases whole, 0, 0
  {
    var (p, q) := (Redact(Arr(x), env).items, Redact(Arr(y), env).items);
    if |x| == |y| {
      if !SensitivePair(x, env) && !SensitivePair(y, env) {
        forall i | 0 <= i < |x| ensures p[i] == q[i] <==> SameButSecrets(x[i], y[i], env) {
          RedactedTreesAgree(x[i], y[i], env);
        }
        if SameButSecrets(Arr(x), Arr(y), env) { assert p == q; }
      } else {
        PairsAgree(x, y, env);
      }
    }
  }

  // A sensitive pair keeps its name, so it cannot be mistaken for another list.
  lemma PairsAgree(x: seq<Json>, y: seq<Json>, env: Env)
    requires |x| == |y| && (SensitivePair(x, env) || SensitivePair(y, env))
    ensures Redact(Arr(x), env) == Redact(Arr(y), env)
            <==> SensitivePair(x, env) && SensitivePair(y, env) && x[0] == y[0]
  {
    var (p, q) := (Redact(Arr(x), env).items, Redact(Arr(y), env).items);
    OnlyTextsBecomeTexts(x[0], env);
    OnlyTextsBecomeTexts(y[0], env);
    assert p[0] == Redact(x[0], env) && q[0] == Redact(y[0], env);
  }

  // ---- Redacting twice ----

  lemma RedactedUrlIsStable(url: string, env: Env)
    requires PlainReplacement(env) && ReadsBack(url, env)
    ensures RedactUrl(RedactUrl(url, env), env) == RedactUrl(url, env)
  {
    if Opaque(url, env) {
      assert RedactQuery([], env) == [];
    } else {
      var p := env.parse(url).value.0;
      var q := RedactQuery(p.query, env);
      assert RedactQuery(q, env) == q;
    }
  }

  lemma {:induction false} RedactedFieldIsStable(key: string, item: Json, env: Env)
    requires PlainReplacement(env) && ReadableField(key, item, env)
    ensures RedactField(key, RedactField(key, item, env), env) == RedactField(key, item, env)
    decreases item, 1
  {
    if !env.sensitive(key) {
      if key == env.urlKey && item.Str? {
        RedactedUrlIsStable(item.s, env);
      } else {
        RedactionIsIdempotent(item, env);
      }
    }
  }

  lemma OnlyTextsBecomeTexts(v: Json, env: Env)
    ensures Redact(v, env).Str? <==> v.Str?
    ensures v.Str? ==> Redact(v, env) == v
  {
  }

  // Redacting a redacted tree changes nothing.
  lemma {:induction false} RedactionIsIdempotent(v: Json, env: Env)
    requires PlainReplacement(env) && Readable(v, env)
    ensures Redact(Redact(v, env), env) == Redact(v, env)
    decreases v, 0
  {
    match v
    case Obj(fields) =>
      var once := Redact(v, env).fields;
      forall key | key in fields ensures RedactField(key, once[key], env) == once[key] {
        RedactedFieldIsStable(key, fields[key], env);
      }
      assert Redact(Obj(once), env).fields == once;
    case Arr(items) =>
      var once := Redact(v, env).items;
      if SensitivePair(items, env) {
        assert SensitivePair(once, env);
      } else {
        forall i | 0 <= i < |items| ensures Redact(once[i], env) == once[i] {
          RedactionIsIdempotent(items[i], env);
        }
        if |items| == 2 {
          assert once[0] == Redact(items[0], env);
          OnlyTextsBecomeTexts(items[0], env);
        }
        assert Redact(Arr(once), env).items == once;
      }
    case _ =>
  }

  // ---- What redaction leaves ----

  // A location outside of everything that is replaced.
  predicate Open(v: Json, ts: seq<Token>, env: Env)
    decreases |ts|
  {
    ts == [] || match (v, ts[0])
      case (Obj(m), Key(k)) =>
        k in m && !env.sensitive(k) && !(k == env.urlKey && m[k].Str?) && Open(m[k], ts[1..], env)
      case (Arr(a), Index(i)) => i < |a| && !SensitivePair(a, env) && Open(a[i], ts[1..], env)
      case _ => false
  }

  // At every open location the tree keeps its shape: keys, lengths, and scalar
  // values are as before.
  lemma {:induction false} OpenLocationsAreKept(v: Json, ts: seq<Token>, env: Env)
    requires Open(v, ts, env)
    ensures At(v, ts).Some? && At(Redact(v, env), ts) == Some(Redact(At(v, ts).value, env))
    ensures var (before, after) := (At(v, ts).value, At(Redact(v, env), ts).value);
            match before
            case Obj(m) => after.Obj? && after.fields.Keys == m.Keys
            case Arr(a) => after.Arr? && |after.items| == |a|
            case _ => after == before
    decreases |ts|
  {
    if ts != [] {
      match (v, ts[0])
      case (Obj(m), Key(k)) =>
        assert Redact(v, env).fields[k] == Redact(m[k], env);
        OpenLocationsAreKept(m[k], ts[1..], env);
      case (Arr(a), Index(i)) =>
        assert Redact(v, env).items[i] == Redact(a[i], env);
        OpenLocationsAreKept(a[i], ts[1..], env);
    }
  }

  // No value under a sensitive name is left anywhere.
  lemma {:induction false} NoSecretIsLeft(v: Json, ts: seq<Token>, k: string, env: Env)
    requires env.sensitive(k) && At(Redact(v, env), ts).Some? && At(Redact(v, env), ts).value.Obj?
    requires k in At(Redact(v, env), ts).value.fields
    ensures At(Redact(v, env), ts).value.fields[k] == Str(env.redacted)
    decreases |ts|
  {
    if ts != [] {
      var r := Redact(v, env);
      match (v, ts[0])
      case (Obj(m), Key(key)) =>
        assert r.fields[key] == RedactField(key, m[key], env);
        if !env.sensitive(key) && !(key == env.urlKey && m[key].Str?) {
          NoSecretIsLeft(m[key], ts[1..], k, env);
        } else {
          ScalarsHaveNoChildren(r.fields[key], ts[1..]);
        }
      case (Arr(a), Index(i)) =>
        if SensitivePair(a, env) {
          ScalarsHaveNoChildren(r.items[i], ts[1..]);
        } else {
          assert r.items[i] == Redact(a[i], env);
          NoSecretIsLeft(a[i], ts[1..], k, env);
        }
    }
  }

  // Nor is the second element of a pair under a sensitive name.
  lemma {:induction false} NoPairedSecretIsLeft(v: Json, ts: seq<Token>, env: Env)
    requires At(Redact(v, env), ts).Some? && At(Redact(v, env), ts).value.Arr?
    requires SensitivePair(At(Redact(v, env), ts).value.items, env)
    ensures At(Redact(v, env), ts).value.items[1] == Str(env.redacted)
    decreases |ts|
  {
    var r := Redact(v, env);
    if ts == [] {
      if |v.items| == 2 { OnlyTextsBecomeTexts(v.items[0], env); }
    } else {
      match (v, ts[0])
      case (Obj(m), Key(key)) =>
        assert r.fields[key] == RedactField(key, m[key], env);
        if !env.sensitive(key) && !(key == env.urlKey && m[key].Str?) {
          NoPairedSecretIsLeft(m[key], ts[1..], env);
        } else {
          ScalarsHaveNoChildren(r.fields[key], ts[1..]);
        }
      case (Arr(a), Index(i)) =>
        if SensitivePair(a, env) {
          ScalarsHaveNoChildren(r.items[i], ts[1..]);
        } else {
          assert r.items[i] == Redact(a[i], env);
          NoPairedSecretIsLeft(a[i], ts[1..], env);
        }
    }
  }

  lemma ScalarsHaveNoChildren(v: Json, ts: seq<Token>)
    requires !v.Obj? && !v.Arr?
    ensures At(v, ts).None? || At(v, ts) == Some(v)
  {
  }
}
