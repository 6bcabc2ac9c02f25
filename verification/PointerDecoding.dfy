// Reported locations are written undecoded, while the resolver decodes them:
// which locations lead back to their node, exactly.
module PointerDecoding {
  import opened Basics
  import opened JsonTree
  import opened JsonPointer

  // ---- Decoding in general ----

  // The pointer segment names this step in whatever node has it.
  predicate Names(part: string, t: Token) {
    match t
    case Key(k) => Unescape(part) == k
    case Index(i) => IsDecimal(Unescape(part)) && ParseDecimal(Unescape(part)) == i
  }

  predicate NamesAll(parts: seq<string>, ts: seq<Token>) {
    |parts| == |ts| && (ts == [] || (Names(parts[0], ts[0]) && NamesAll(parts[1..], ts[1..])))
  }

  // The pointer, as it is after decoding, spells the token path.
  predicate Spells(pointer: string, ts: seq<Token>) {
    ts == [] || NamesAll(Split(if pointer == "" then "" else pointer[1..]), ts)
  }

  lemma {:induction false} NamedIsFollowed(v: Json, parts: seq<string>, ts: seq<Token>)
    requires NamesAll(parts, ts) && At(v, ts).Some?
    ensures Follow(v, parts) == Ok(At(v, ts).value)
    decreases |ts|
  {
    if ts != [] {
      var c := Child(v, ts[0]).value;
      assert StepInto(v, parts[0]) == Ok(c);
      NamedIsFollowed(c, parts[1..], ts[1..]);
    }
  }

  // Wherever the resolver arrives, its segments name the way there.
  lemma {:induction false} FollowedIsNamed(v: Json, parts: seq<string>) returns (ts: seq<Token>)
    requires Follow(v, parts).Ok?
    ensures NamesAll(parts, ts) && At(v, ts) == Some(Follow(v, parts).value)
    decreases |parts|
  {
    if parts == [] {
      ts := [];
    } else {
      var token := Unescape(parts[0]);
      var t := if v.Obj? then Key(token) else Index(ParseDecimal(token));
      var c := StepInto(v, parts[0]).value;
      var rest := FollowedIsNamed(c, parts[1..]);
      ts := [t] + rest;
      assert ts[1..] == rest && Child(v, t) == Some(c);
    }
  }

  lemma {:induction false} AtExtended(v: Json, ts: seq<Token>, t: Token)
    requires At(v, ts).Some?
    ensures At(v, ts + [t]) == Child(At(v, ts).value, t)
    decreases |ts|
  {
    if ts == [] {
      assert ([] + [t])[1..] == [];
    } else {
      assert (ts + [t])[1..] == ts[1..] + [t];
      AtExtended(Child(v, ts[0]).value, ts[1..], t);
    }
  }

  // No value is inside itself.
  lemma {:induction false} NothingContainsItself(v: Json, ts: seq<Token>)
    requires ts != []
    ensures At(v, ts) != Some(v)
    decreases v
  {
    if At(v, ts) == Some(v) {
      var c := Child(v, ts[0]).value;
      AtExtended(c, ts[1..], ts[0]);
      match v
      case Obj(m) => NothingContainsItself(m[ts[0].key], ts[1..] + [ts[0]]);
      case Arr(a) => NothingContainsItself(a[ts[0].index], ts[1..] + [ts[0]]);
    }
  }

  function Other(v: Json): Json {
    if v == Null then Bool(true) else Null
  }

  // A document with little else than this path to the target.
  function Chain(ts: seq<Token>, target: Json): Json {
    if ts == [] then target
    else
      var rest := Chain(ts[1..], target);
      match ts[0]
      case Key(k) => Obj(map[k := rest])
      case Index(i) => Arr(seq(i + 1, j => if j == i then rest else Other(target)))
  }

  lemma {:induction false} ChainHolds(ts: seq<Token>, target: Json)
    ensures At(Chain(ts, target), ts) == Some(target)
  {
    if ts != [] {
      ChainHolds(ts[1..], target);
    }
  }

  // In the chain, only the segments of the path lead to the target.
  lemma {:induction false} ChainIsFollowedExactly(parts: seq<string>, ts: seq<Token>, target: Json)
    ensures Follow(Chain(ts, target), parts) == Ok(target) <==> NamesAll(parts, ts)
    decreases |ts|
  {
    var v := Chain(ts, target);
    if ts == [] {
      if Follow(v, parts) == Ok(target) && parts != [] {
        var us := FollowedIsNamed(v, parts);
        NothingContainsItself(target, us);
      }
    } else if parts == [] {
      ChainHolds(ts, target);
      NothingContainsItself(v, ts);
    } else {
      ChainIsFollowedExactly(parts[1..], ts[1..], target);
      var next := StepInto(v, parts[0]);
      if !Names(parts[0], ts[0]) && next.Ok? {
        assert next.value == Other(target);
        assert Follow(v, parts) == Follow(Other(target), parts[1..]);
      }
    }
  }

  lemma ResolveFollows(unquote: string -> string, document: Json, ts: seq<Token>)
    requires ts != []
    ensures var pointer := unquote(Render(ts));
            Resolve(unquote, document, "#" + Render(ts))
            == Follow(document, Split(if pointer == "" then "" else pointer[1..]))
  {
    RenderHead(ts);
    assert ("#" + Render(ts))[1..] == Render(ts) && "#/" <= "#" + Render(ts);
  }

  lemma ChainResolvesExactly(unquote: string -> string, ts: seq<Token>, target: Json)
    ensures Resolve(unquote, Chain(ts, target), "#" + Render(ts)) == Ok(target) <==> Spells(unquote(Render(ts)), ts)
  {
    if ts != [] {
      ResolveFollows(unquote, Chain(ts, target), ts);
      var pointer := unquote(Render(ts));
      ChainIsFollowedExactly(Split(if pointer == "" then "" else pointer[1..]), ts, target);
    }
  }

  ghost predicate LeadsBack(unquote: string -> string, ts: seq<Token>) {
    forall document | At(document, ts).Some? ::
      Resolve(unquote, document, "#" + Render(ts)) == Ok(At(document, ts).value)
  }

  // Whatever decoding does: a location leads back to its node in every document
  // that has one there if and only if, decoded, it spells the same tokens.
  lemma LocationLeadsBackExactly(unquote: string -> string, ts: seq<Token>)
    ensures LeadsBack(unquote, ts) <==> Spells(unquote(Render(ts)), ts)
  {
    if Spells(unquote(Render(ts)), ts) {
      forall document | At(document, ts).Some?
        ensures Resolve(unquote, document, "#" + Render(ts)) == Ok(At(document, ts).value)
      {
        if ts != [] {
          var pointer := unquote(Render(ts));
          ResolveFollows(unquote, document, ts);
          NamedIsFollowed(document, Split(if pointer == "" then "" else pointer[1..]), ts);
        }
      }
    } else {
      ChainHolds(ts, Null);
      ChainResolvesExactly(unquote, ts, Null);
    }
  }

  // ---- Percent-decoding ----

  predicate IsHexDigit(c: char) {
    '0' <= c <= '9' || 'a' <= c <= 'f' || 'A' <= c <= 'F'
  }

  // A percent sign and two hexadecimal digits.
  predicate EscapeFirst(s: string) {
    |s| >= 3 && s[0] == '%' && IsHexDigit(s[1]) && IsHexDigit(s[2])
  }

  predicate HasEscape(s: string) {
    s != "" && (EscapeFirst(s) || HasEscape(s[1..]))
  }

  function HexValue(c: char): nat
    requires IsHexDigit(c)
  {
    if c <= '9' then c as int - '0' as int
    else if c <= 'F' then c as int - 'A' as int + 10
    else c as int - 'a' as int + 10
  }

  // The bytes of the escapes that the text starts with.
  function EscapedBytes(s: string): (bytes: seq<nat>)
    ensures 3 * |bytes| <= |s| && (bytes != [] <==> EscapeFirst(s))
    ensures '~' !in s[..3 * |bytes|]
  {
    if EscapeFirst(s) then
      var rest := EscapedBytes(s[3..]);
      assert s[..3 * (1 + |rest|)] == s[..3] + s[3..][..3 * |rest|];
      [16 * HexValue(s[1]) + HexValue(s[2])] + rest
    else []
  }

  // urllib's unquote(): the bytes of adjacent escapes are decoded together, and
  // anything else stays.
  function Unquote(s: string, decode: seq<nat> -> string): string {
    if s == "" then ""
    else if EscapeFirst(s) then
      var bytes := EscapedBytes(s);
      decode(bytes) + Unquote(s[3 * |bytes|..], decode)
    else [s[0]] + Unquote(s[1..], decode)
  }

  // UTF-8 decoding yields at most one character for a byte, malformed or not.
  ghost predicate OneForAByte(decode: seq<nat> -> string) {
    forall bytes :: |decode(bytes)| <= |bytes|
  }

  predicate TildeEscapeFirst(s: string) {
    |s| >= 2 && s[0] == '~' && (s[1] == '0' || s[1] == '1')
  }

  // How many characters the text stands for at most, once its tilde escapes
  // are undone.
  function Weight(s: string): nat {
    if s == "" then 0 else (if TildeEscapeFirst(s) then 0 else 1) + Weight(s[1..])
  }

  lemma {:induction false} WeightWithoutTilde(a: string, b: string)
    requires '~' !in a
    ensures Weight(a + b) == |a| + Weight(b)
  {
    if a == "" {
      assert a + b == b;
    } else {
      assert (a + b)[1..] == a[1..] + b && (a + b)[0] == a[0];
      WeightWithoutTilde(a[1..], b);
    }
  }

  lemma {:induction false} WeightOfJoined(a: string, b: string)
    ensures Weight(a + b) <= |a| + Weight(b)
  {
    if a == "" {
      assert a + b == b;
    } else {
      assert (a + b)[1..] == a[1..] + b;
      WeightOfJoined(a[1..], b);
    }
  }

  lemma DecodedHead(c: char, s: string, decode: seq<nat> -> string)
    requires !EscapeFirst([c] + s)
    ensures Unquote([c] + s, decode) == [c] + Unquote(s, decode)
  {
    assert ([c] + s)[1..] == s;
  }

  // Decoding changes exactly the texts with an escape, and makes them lighter.
  lemma {:induction false} DecodingIsLighter(s: string, decode: seq<nat> -> string)
    requires OneForAByte(decode)
    ensures HasEscape(s) ==> Weight(Unquote(s, decode)) < Weight(s)
    ensures !HasEscape(s) ==> Unquote(s, decode) == s
  {
    if s != "" {
      if EscapeFirst(s) {
        var n := |EscapedBytes(s)|;
        DecodingIsLighter(s[3 * n..], decode);
        assert Weight(Unquote(s[3 * n..], decode)) <= Weight(s[3 * n..]);
        EscapesAreLighter(s, decode);
      } else {
        DecodingIsLighter(s[1..], decode);
        LighterTail(s[0], s[1..], decode);
        assert s == [s[0]] + s[1..];
      }
    }
  }

  lemma WeightOfEscapes(s: string)
    ensures Weight(s) == 3 * |EscapedBytes(s)| + Weight(s[3 * |EscapedBytes(s)|..])
  {
    var n := 3 * |EscapedBytes(s)|;
    WeightWithoutTilde(s[..n], s[n..]);
    assert s[..n] + s[n..] == s;
  }

  lemma LighterEscapes(bytes: seq<nat>, rest: string, decode: seq<nat> -> string)
    requires OneForAByte(decode) && bytes != [] && Weight(Unquote(rest, decode)) <= Weight(rest)
    ensures Weight(decode(bytes) + Unquote(rest, decode)) < 3 * |bytes| + Weight(rest)
  {
    var decoded := decode(bytes);
    assert |decoded| <= |bytes|;
    WeightOfJoined(decoded, Unquote(rest, decode));
  }

  lemma EscapesAreLighter(s: string, decode: seq<nat> -> string)
    requires OneForAByte(decode) && EscapeFirst(s)
    requires var rest := s[3 * |EscapedBytes(s)|..]; Weight(Unquote(rest, decode)) <= Weight(rest)
    ensures Weight(Unquote(s, decode)) < Weight(s)
  {
    WeightOfEscapes(s);
    LighterEscapes(EscapedBytes(s), s[3 * |EscapedBytes(s)|..], decode);
  }

  lemma LighterTail(c: char, s: string, decode: seq<nat> -> string)
    ensures Weight([c] + Unquote(s, decode)) - Weight(Unquote(s, decode)) <= Weight([c] + s) - Weight(s)
  {
    var (a, b) := ([c] + s, [c] + Unquote(s, decode));
    assert a[1..] == s && b[1..] == Unquote(s, decode);
    if TildeEscapeFirst(a) {
      assert !EscapeFirst(s) && Unquote(s, decode)[0] == s[0];
    }
  }

  // ---- Weights of segments ----

  predicate ZeroEscapeFirst(s: string) {
    |s| >= 2 && s[0] == '~' && s[1] == '0'
  }

  function ZeroWeight(s: string): nat {
    if s == "" then 0 else (if ZeroEscapeFirst(s) then 0 else 1) + ZeroWeight(s[1..])
  }

  lemma {:induction false} SlashesUnescaped(s: string)
    ensures ZeroWeight(Replace(s, "~1", "/")) <= Weight(s)
    ensures s != "" && s[0] == '0' ==> Replace(s, "~1", "/") != "" && Replace(s, "~1", "/")[0] == '0'
  {
    if |s| >= 2 && s[..2] == "~1" {
      assert s[0] == s[..2][0] == '~' && s[1] == s[..2][1] == '1';
      SlashesUnescaped(s[2..]);
      var rest := Replace(s[2..], "~1", "/");
      assert ("/" + rest)[1..] == rest;
      assert s[1..][1..] == s[2..];
    } else if |s| >= 2 {
      SlashesUnescaped(s[1..]);
      var rest := Replace(s[1..], "~1", "/");
      var r := [s[0]] + rest;
      assert Replace(s, "~1", "/") == r && r[1..] == rest;
      assert s[0] == '~' ==> s[1] != '1' by { assert s[..2] == [s[0], s[1]]; }
    }
  }

  lemma {:induction false} TildesUnescaped(s: string)
    ensures |Replace(s, "~0", "~")| <= ZeroWeight(s)
  {
    if |s| >= 2 && s[..2] == "~0" {
      assert s[0] == s[..2][0] == '~' && s[1] == s[..2][1] == '0';
      TildesUnescaped(s[2..]);
      assert s[1..][1..] == s[2..];
    } else if |s| >= 2 {
      TildesUnescaped(s[1..]);
      assert s[0] == '~' ==> s[1] != '0' by { assert s[..2] == [s[0], s[1]]; }
    }
  }

  lemma UnescapedLength(s: string)
    ensures |Unescape(s)| <= Weight(s)
  {
    SlashesUnescaped(s);
    TildesUnescaped(Replace(s, "~1", "/"));
  }

  lemma {:induction false} EscapedWeight(k: string)
    ensures Weight(EscapeAll(k)) == |k|
  {
    if k != "" {
      EscapedWeight(k[1..]);
      var rest := EscapeAll(k[1..]);
      var s := Escaped(k[0]) + rest;
      if |Escaped(k[0])| == 2 {
        assert s[1..][1..] == rest && s[0] == '~' && (s[1] == '0' || s[1] == '1');
      } else {
        assert s[1..] == rest && s[0] != '~';
      }
    }
  }

  // The usual numeral is the shortest one.
  lemma {:induction false} DecimalIsShortest(s: string)
    requires IsDecimal(s)
    ensures |Decimal(ParseDecimal(s))| <= |s|
  {
    if |s| > 1 {
      DecimalIsShortest(s[..|s| - 1]);
    }
  }

  lemma NamedSegmentWeighs(part: string, t: Token)
    requires Names(part, t)
    ensures Weight(Segment(t)) <= Weight(part)
  {
    UnescapedLength(part);
    match t
    case Key(k) =>
      EscapeIsEscapeAll(k);
      EscapedWeight(k);
    case Index(i) =>
      DecimalIsShortest(Unescape(part));
      WeightWithoutTilde(Decimal(i), "");
      assert Decimal(i) + "" == Decimal(i);
  }

  // ---- Weights of pointers ----

  function TotalWeight(parts: seq<string>): nat {
    if parts == [] then 0 else 1 + Weight(parts[0]) + TotalWeight(parts[1..])
  }

  lemma {:induction false} SplitWeight(s: string)
    ensures TotalWeight(Split(s)) == 1 + Weight(s)
    ensures s != "" && s[0] != '/' ==> Split(s)[0] != "" && Split(s)[0][0] == s[0]
    ensures s == "" || s[0] == '/' ==> Split(s)[0] == ""
  {
    if s == "" {
      assert [""][1..] == [];
    } else {
      SplitWeight(s[1..]);
      var rest := Split(s[1..]);
      if s[0] == '/' {
        assert ([""] + rest)[1..] == rest;
      } else {
        var parts := [[s[0]] + rest[0]] + rest[1..];
        assert parts[1..] == rest[1..] && parts[0][1..] == rest[0];
        assert TildeEscapeFirst(parts[0]) == TildeEscapeFirst(s);
      }
    }
  }

  lemma {:induction false} NamedWeighs(parts: seq<string>, ts: seq<Token>)
    requires NamesAll(parts, ts)
    ensures TotalRendered(ts) <= TotalWeight(parts)
  {
    if ts != [] {
      NamedSegmentWeighs(parts[0], ts[0]);
      NamedWeighs(parts[1..], ts[1..]);
    }
  }

  function TotalRendered(ts: seq<Token>): nat {
    if ts == [] then 0 else 1 + Weight(Segment(ts[0])) + TotalRendered(ts[1..])
  }

  lemma {:induction false} RenderedWeight(ts: seq<Token>)
    ensures Weight(Render(ts)) == TotalRendered(ts)
  {
    if ts != [] {
      RenderedWeight(ts[1..]);
      RenderTail(ts);
      RenderHead(ts[1..]);
      assert Render(ts)[0] == '/';
      SegmentWeight(Segment(ts[0]), Render(ts[1..]));
    }
  }

  lemma {:induction false} SegmentWeight(a: string, b: string)
    requires b == "" || b[0] == '/'
    ensures Weight(a + b) == Weight(a) + Weight(b)
  {
    if a == "" {
      assert a + b == b;
    } else {
      assert (a + b)[1..] == a[1..] + b;
      SegmentWeight(a[1..], b);
      assert TildeEscapeFirst(a + b) == TildeEscapeFirst(a);
    }
  }

  lemma PointerWeight(pointer: string)
    ensures TotalWeight(Split(if pointer == "" then "" else pointer[1..])) <= 1 + Weight(pointer)
    ensures pointer != "" && pointer[0] == '/' ==> TotalWeight(Split(pointer[1..])) == Weight(pointer)
  {
    SplitWeight(if pointer == "" then "" else pointer[1..]);
  }

  // A pointer that decoding changes does not spell its tokens any more.
  lemma SpellsExactly(decode: seq<nat> -> string, ts: seq<Token>)
    requires OneForAByte(decode)
    ensures Spells(Unquote(Render(ts), decode), ts) <==> !HasEscape(Render(ts))
  {
    if ts != [] {
      var pointer := Unquote(Render(ts), decode);
      RenderHead(ts);
      DecodingIsLighter(Render(ts), decode);
      PointerWeight(pointer);
      RenderedWeight(ts);
      assert pointer[0] == '/';
      if Spells(pointer, ts) {
        NamedWeighs(Split(pointer[1..]), ts);
      }
      if !HasEscape(Render(ts)) {
        RenderedIsSpelled(ts);
      }
    }
  }

  lemma {:induction false} RenderedIsSpelled(ts: seq<Token>)
    requires ts != []
    ensures NamesAll(Split(Render(ts)[1..]), ts)
  {
    SplitRendered(ts);
    SegmentIsNamed(ts[0]);
    var parts := Split(Render(ts)[1..]);
    if ts[1..] != [] {
      RenderedIsSpelled(ts[1..]);
      assert parts[1..] == Split(Render(ts[1..])[1..]);
    } else {
      assert parts[1..] == [];
    }
  }

  lemma SegmentIsNamed(t: Token)
    ensures Names(Segment(t), t)
  {
    match t
    case Key(k) => UnescapeEscape(k);
    case Index(i) =>
      ParseDecimalOfDecimal(i);
      UnescapeDigits(Decimal(i));
  }

  // ---- Escapes in keys ----

  predicate EscapeFree(ts: seq<Token>) {
    forall i :: 0 <= i < |ts| && ts[i].Key? ==> !HasEscape(ts[i].key)
  }

  lemma {:induction false} EscapeBeforeSlash(a: string, b: string)
    requires b == "" || b[0] == '/'
    ensures HasEscape(a + b) <==> HasEscape(a) || HasEscape(b)
  {
    if a == "" {
      assert a + b == b;
    } else {
      assert (a + b)[1..] == a[1..] + b;
      EscapeBeforeSlash(a[1..], b);
      assert EscapeFirst(a + b) == EscapeFirst(a);
    }
  }

  lemma EscapedStart(k: string)
    ensures k == "" <==> EscapeAll(k) == ""
    ensures k != "" ==> (IsHexDigit(EscapeAll(k)[0]) <==> IsHexDigit(k[0]))
    ensures k != "" && k[0] != '~' && k[0] != '/' ==> EscapeAll(k)[0] == k[0] && EscapeAll(k)[1..] == EscapeAll(k[1..])
  {
  }

  lemma {:induction false} EscapeOfKey(k: string)
    ensures HasEscape(EscapeAll(k)) <==> HasEscape(k)
  {
    if k != "" {
      EscapeOfKey(k[1..]);
      EscapedStart(k);
      EscapedStart(k[1..]);
      var (s, rest) := (EscapeAll(k), EscapeAll(k[1..]));
      if k[0] == '~' || k[0] == '/' {
        assert s[1..][1..] == rest;
      } else {
        if |k| >= 2 { EscapedStart(k[2..]); }
        assert EscapeFirst(s) == EscapeFirst(k);
      }
    }
  }

  lemma {:induction false} NoPercentNoEscape(s: string)
    requires '%' !in s
    ensures !HasEscape(s)
  {
    if s != "" {
      NoPercentNoEscape(s[1..]);
    }
  }

  lemma EscapeOfSegment(t: Token)
    ensures HasEscape(Segment(t)) <==> t.Key? && HasEscape(t.key)
  {
    match t
    case Key(k) =>
      EscapeIsEscapeAll(k);
      EscapeOfKey(k);
    case Index(i) => NoPercentNoEscape(Decimal(i));
  }

  lemma {:induction false} EscapeOfPath(ts: seq<Token>)
    ensures HasEscape(Render(ts)) <==> !EscapeFree(ts)
  {
    if ts != [] {
      EscapeOfPath(ts[1..]);
      EscapeOfSegment(ts[0]);
      RenderTail(ts);
      RenderHead(ts[1..]);
      EscapeBeforeSlash(Segment(ts[0]), Render(ts[1..]));
      assert Render(ts)[0] == '/';
      assert ts == [ts[0]] + ts[1..];
    }
  }

  // ---- Which locations lead back ----

  // A location leads back to its node in every document if and only if no key
  // on its path holds a percent escape; other percent signs do no harm.
  lemma EscapeFreeLocationsLeadBack(decode: seq<nat> -> string, ts: seq<Token>)
    requires OneForAByte(decode)
    ensures LeadsBack(s => Unquote(s, decode), ts) <==> EscapeFree(ts)
  {
    LocationLeadsBackExactly(s => Unquote(s, decode), ts);
    SpellsExactly(decode, ts);
    EscapeOfPath(ts);
  }

  // The same of the references that are reported, as the value they report.
  lemma ReportedReferencesResolveExactly(decode: seq<nat> -> string, ts: seq<Token>)
    requires OneForAByte(decode) && ts != [] && ts[|ts| - 1] == Key("$ref")
    ensures (forall document, found | RefAt(document, "#", found, ts) ::
               found in WalkRefs(document, "#") && Resolve(s => Unquote(s, decode), document, found.0) == Ok(found.1))
       <==> EscapeFree(ts)
  {
    var unquote := s => Unquote(s, decode);
    EscapeFreeLocationsLeadBack(decode, ts);
    forall document, found | RefAt(document, "#", found, ts) ensures found in WalkRefs(document, "#") {
      WalkRefsYieldsAllRefs(document, "#", found, ts);
    }
    if !EscapeFree(ts) {
      EscapedKeyMisresolves(decode, ts, Null);
      assert RefAt(Chain(ts, Null), "#", ("#" + Render(ts), Null), ts);
    }
  }

  // Every path with an escape in a key has a document in which its location is
  // not resolved to the target that is there.
  lemma EscapedKeyMisresolves(decode: seq<nat> -> string, ts: seq<Token>, target: Json)
    requires OneForAByte(decode)
    ensures At(Chain(ts, target), ts) == Some(target)
    ensures Resolve(s => Unquote(s, decode), Chain(ts, target), "#" + Render(ts)) == Ok(target) <==> EscapeFree(ts)
  {
    ChainHolds(ts, target);
    ChainResolvesExactly(s => Unquote(s, decode), ts, target);
    SpellsExactly(decode, ts);
    EscapeOfPath(ts);
  }

  // A reference under a single key, whatever the key is made of.
  lemma PercentKeysMisresolve(decode: seq<nat> -> string, key: string, target: Json)
    requires OneForAByte(decode)
    ensures var document := Obj(map[key := Obj(map["$ref" := target])]);
            var location := "#" + Render([Key(key), Key("$ref")]);
            && (location, target) in WalkRefs(document, "#")
            && (Resolve(s => Unquote(s, decode), document, location) == Ok(target) <==> !HasEscape(key))
  {
    var ts := [Key(key), Key("$ref")];
    ChainOfTwo(key, "$ref", target);
    EscapedKeyMisresolves(decode, ts, target);
    WalkRefsYieldsAllRefs(Chain(ts, target), "#", ("#" + Render(ts), target), ts);
    RefIsEscapeFree();
    assert EscapeFree(ts) <==> !HasEscape(ts[0].key) && !HasEscape(ts[1].key);
  }

  lemma ChainOfTwo(a: string, b: string, target: Json)
    ensures Chain([Key(a), Key(b)], target) == Obj(map[a := Obj(map[b := target])])
  {
    var ts := [Key(a), Key(b)];
    assert ts[1..] == [Key(b)] && [Key(b)][1..] == [];
    assert Chain([Key(b)], target) == Obj(map[b := target]);
  }

  lemma RefIsEscapeFree()
    ensures !HasEscape("$ref")
  {
    NoPercentNoEscape("$ref");
  }
}
