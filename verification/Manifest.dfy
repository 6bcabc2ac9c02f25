// The documentation manifest: line-ending normalization, and the comparison of
// a stored manifest with the expected one.
module Manifest {
  import opened Basics
  import opened JsonTree

  // ---- Canonical bytes ----

  const CR := 13
  const LF := 10

  // raw.replace(b"\r\n", b"\n")
  function Canonical(s: seq<int>): seq<int> {
    if |s| >= 2 && s[0] == CR && s[1] == LF then [LF] + Canonical(s[2..])
    else if s == [] then []
    else [s[0]] + Canonical(s[1..])
  }

  predicate CrLfAt(s: seq<int>, i: int) {
    0 <= i < |s| - 1 && s[i] == CR && s[i + 1] == LF
  }

  predicate CrCrLfAt(s: seq<int>, i: int) {
    0 <= i < |s| - 2 && s[i] == CR && s[i + 1] == CR && s[i + 2] == LF
  }

  ghost predicate HasCrLf(s: seq<int>) {
    exists i :: CrLfAt(s, i)
  }

  ghost predicate HasCrCrLf(s: seq<int>) {
    exists i :: CrCrLfAt(s, i)
  }

  lemma CrLfCons(x: int, s: seq<int>)
    ensures HasCrLf([x] + s) <==> CrLfAt([x] + s, 0) || HasCrLf(s)
  {
    var t := [x] + s;
    if i :| CrLfAt(t, i) && i > 0 { assert CrLfAt(s, i - 1); }
    if i :| CrLfAt(s, i) { assert CrLfAt(t, i + 1); }
  }

  lemma CrCrLfCons(x: int, s: seq<int>)
    ensures HasCrCrLf([x] + s) <==> CrCrLfAt([x] + s, 0) || HasCrCrLf(s)
  {
    var t := [x] + s;
    if i :| CrCrLfAt(t, i) && i > 0 { assert CrCrLfAt(s, i - 1); }
    if i :| CrCrLfAt(s, i) { assert CrCrLfAt(t, i + 1); }
  }

  lemma CanonicalHead(s: seq<int>)
    ensures Canonical(s) != [] && Canonical(s)[0] == LF <==> s != [] && (s[0] == LF || CrLfAt(s, 0))
    ensures Canonical(s) == [] <==> s == []
  {
  }

  // Normalizing leaves a CRLF behind exactly where CR CR LF stood before, so a
  // second pass changes nothing if and only if there was none.
  lemma {:induction false} CanonicalLeaves(s: seq<int>)
    ensures HasCrLf(Canonical(s)) <==> HasCrCrLf(s)
    decreases |s|
  {
    if |s| >= 2 && CrLfAt(s, 0) {
      CanonicalLeaves(s[2..]);
      CrLfCons(LF, Canonical(s[2..]));
      CrCrLfCons(s[1], s[2..]);
      CrCrLfCons(s[0], s[1..]);
      assert s == [s[0]] + s[1..] && s[1..] == [s[1]] + s[2..];
    } else if s != [] {
      CanonicalLeaves(s[1..]);
      CrLfCons(s[0], Canonical(s[1..]));
      CrCrLfCons(s[0], s[1..]);
      CanonicalHead(s[1..]);
      assert s == [s[0]] + s[1..];
    }
  }

  lemma {:induction false} CanonicalKeeps(s: seq<int>)
    ensures Canonical(s) == s <==> !HasCrLf(s)
    ensures |Canonical(s)| <= |s|
    decreases |s|
  {
    if |s| >= 2 && CrLfAt(s, 0) {
      CanonicalKeeps(s[2..]);
    } else if s != [] {
      CanonicalKeeps(s[1..]);
      CrLfCons(s[0], s[1..]);
      assert s == [s[0]] + s[1..];
      assert Canonical(s)[1..] == Canonical(s[1..]);
    }
  }

  lemma CanonicalIsIdempotentExactlyWithoutCrCrLf(s: seq<int>)
    ensures Canonical(Canonical(s)) == Canonical(s) <==> !HasCrCrLf(s)
  {
    CanonicalKeeps(Canonical(s));
    CanonicalLeaves(s);
  }

  lemma CrCrLfIsReadTwice()
    ensures var s := [13, 13, 10]; Canonical(s) == [13, 10] && Canonical(Canonical(s)) == [10] && HasCrCrLf(s)
  {
    var s := [13, 13, 10];
    assert s[1..] == [13, 10] && s[1..][1..] == [10] && s[1..][1..][1..] == [];
    assert [13, 10][2..] == [] && [13, 10][1..] == [10];
    assert Canonical([13, 10]) == [10];
    assert CrCrLfAt(s, 0);
  }

  // ---- Expected and stored manifests ----

  datatype Entry = Entry(path: string, bytes: int, sha256: string)

  datatype Expected = Expected(schemaVersion: string, policy: map<string, Json>, files: seq<Entry>)

  // The field names of a manifest and of its entries.
  datatype Names = Names(schemaVersion: string, policy: string, files: string, path: string, bytes: string, sha256: string)

  const NAMES := Names("schema_version", "inclusion_policy", "files", "path", "bytes", "sha256")

  predicate Different(n: Names) {
    && n.schemaVersion != n.policy && n.schemaVersion != n.files && n.policy != n.files
    && n.path != n.bytes && n.path != n.sha256 && n.bytes != n.sha256
  }

  lemma NamesAreDifferent()
    ensures Different(NAMES)
  {
    assert |NAMES.schemaVersion| == 14 && |NAMES.policy| == 16 && |NAMES.files| == 5;
    assert |NAMES.path| == 4 && |NAMES.bytes| == 5 && |NAMES.sha256| == 6;
  }

  function EntryFields(e: Entry, n: Names): map<string, Json> {
    map[n.path := Str(e.path), n.bytes := Int(e.bytes), n.sha256 := Str(e.sha256)]
  }

  function Entries(files: seq<Entry>, n: Names): (r: seq<Json>)
    ensures |r| == |files| && forall i :: 0 <= i < |r| ==> r[i] == Obj(EntryFields(files[i], n))
  {
    if files == [] then [] else Entries(files[..|files| - 1], n) + [Obj(EntryFields(files[|files| - 1], n))]
  }

  function AsJson(e: Expected, n: Names): Json {
    Obj(map[n.schemaVersion := Str(e.schemaVersion), n.policy := Obj(e.policy), n.files := Arr(Entries(e.files, n))])
  }

  function Paths(files: seq<Entry>): (r: seq<string>)
    ensures |r| == |files| && forall i :: 0 <= i < |r| ==> r[i] == files[i].path
  {
    if files == [] then [] else Paths(files[..|files| - 1]) + [files[|files| - 1].path]
  }

  datatype Difference =
    | NotAnObject | OtherField(name: string) | NotAList | NotAnEntry(index: nat) | NoPath(index: nat) | Repeated(path: string)
    | Unsorted | NotListed(path: string) | OtherBytes(path: string) | OtherDigest(path: string)
    | ExtraFields(path: string) | NotSelected(path: string) | ExtraTopLevel

  // ---- Indexing ----

  predicate HasPath(j: Json, n: Names) {
    j.Obj? && j.Get(n.path).Str?
  }

  function PathOf(j: Json, n: Names): string {
    if HasPath(j, n) then j.Get(n.path).s else ""
  }

  predicate Indexable(items: seq<Json>, n: Names) {
    && (forall i :: 0 <= i < |items| ==> HasPath(items[i], n))
    && (forall i, j :: 0 <= i < j < |items| ==> PathOf(items[i], n) != PathOf(items[j], n))
  }

  predicate Listed(items: seq<Json>, path: string, n: Names) {
    exists i :: 0 <= i < |items| && HasPath(items[i], n) && PathOf(items[i], n) == path
  }

  // The first record of each path.
  function PathIndex(items: seq<Json>, n: Names): map<string, Json> {
    if items == [] then map[]
    else
      var (rest, last) := (PathIndex(items[..|items| - 1], n), items[|items| - 1]);
      if HasPath(last, n) && PathOf(last, n) !in rest then rest[PathOf(last, n) := last] else rest
  }

  // What is wrong with the records as records, in order.
  function Problems(items: seq<Json>, n: Names): seq<Difference> {
    if items == [] then []
    else
      var i := |items| - 1;
      Problems(items[..i], n)
      + (if !items[i].Obj? then [NotAnEntry(i)]
         else if !items[i].Get(n.path).Str? then [NoPath(i)]
         else if items[i].Get(n.path).s in PathIndex(items[..i], n) then [Repeated(items[i].Get(n.path).s)]
         else [])
  }

  lemma {:induction false} IndexFacts(items: seq<Json>, n: Names)
    ensures Problems(items, n) == [] <==> Indexable(items, n)
    ensures forall path :: path in PathIndex(items, n) <==> Listed(items, path, n)
    ensures forall path :: path in PathIndex(items, n) ==>
              HasPath(PathIndex(items, n)[path], n) && PathOf(PathIndex(items, n)[path], n) == path
    ensures Indexable(items, n) ==> forall k :: 0 <= k < |items| ==>
              PathOf(items[k], n) in PathIndex(items, n) && PathIndex(items, n)[PathOf(items[k], n)] == items[k]
  {
    if items != [] {
      var i := |items| - 1;
      IndexFacts(items[..i], n);
      IndexableNext(items, i, n);
      ListedNext(items, i, n);
      assert items[..i + 1] == items;
    }
  }

  // The problems found are none exactly when every record is an object with a
  // path of its own; the index then holds each record under its path.
  method FileIndex(files: Json, n: Names) returns (indexed: map<string, Json>, problems: seq<Difference>)
    ensures problems == [] <==> files.Arr? && Indexable(files.items, n)
    ensures problems == [] ==> forall path :: path in indexed <==> Listed(files.items, path, n)
    ensures problems == [] ==> forall i :: 0 <= i < |files.items| ==>
              PathOf(files.items[i], n) in indexed && indexed[PathOf(files.items[i], n)] == files.items[i]
    ensures forall path :: path in indexed ==> HasPath(indexed[path], n) && PathOf(indexed[path], n) == path
    ensures indexed == if files.Arr? then PathIndex(files.items, n) else map[]
    ensures problems == if files.Arr? then Problems(files.items, n) else [NotAList]
  {
    indexed, problems := map[], [];
    if !files.Arr? { return indexed, [NotAList]; }
    var items := files.items;
    var i := 0;
    while i < |items|
      invariant 0 <= i <= |items|
      invariant indexed == PathIndex(items[..i], n) && problems == Problems(items[..i], n)
    {
      assert items[..i + 1][..i] == items[..i];
      var entry := items[i];
      if !entry.Obj? {
        problems := problems + [NotAnEntry(i)];
      } else if !entry.Get(n.path).Str? {
        problems := problems + [NoPath(i)];
      } else if entry.Get(n.path).s in indexed {
        problems := problems + [Repeated(entry.Get(n.path).s)];
      } else {
        indexed := indexed[entry.Get(n.path).s := entry];
      }
      i := i + 1;
    }
    assert items[..i] == items;
    IndexFacts(items, n);
  }

  // What is wrong with the list of records itself: a record that is no object,
  // one without a path, or a path that comes again.
  predicate Malformed(items: seq<Json>, d: Difference, n: Names) {
    match d
    case NotAnEntry(i) => i < |items| && !items[i].Obj?
    case NoPath(i) => i < |items| && items[i].Obj? && !items[i].Get(n.path).Str?
    case Repeated(path) => exists i, k :: 0 <= i < k < |items| && Has(items[i], path, n) && Has(items[k], path, n)
    case _ => false
  }

  predicate Has(entry: Json, path: string, n: Names) {
    entry.Obj? && entry.Get(n.path) == Str(path)
  }

  lemma RepeatedNext(items: seq<Json>, path: string, n: Names)
    requires items != []
    ensures var (rest, last) := (items[..|items| - 1], items[|items| - 1]);
            Malformed(items, Repeated(path), n) <==>
              Malformed(rest, Repeated(path), n) || (Has(last, path, n) && Listed(rest, path, n))
  {
    var (i, rest) := (|items| - 1, items[..|items| - 1]);
    if Malformed(items, Repeated(path), n) {
      var k, l :| 0 <= k < l < |items| && Has(items[k], path, n) && Has(items[l], path, n);
      assert rest[k] == items[k];
      if l < i { assert rest[l] == items[l]; }
    }
    if Malformed(rest, Repeated(path), n) {
      var k, l :| 0 <= k < l < |rest| && Has(rest[k], path, n) && Has(rest[l], path, n);
      assert rest[k] == items[k] && rest[l] == items[l];
    }
    if Has(items[i], path, n) && Listed(rest, path, n) {
      var k :| 0 <= k < |rest| && HasPath(rest[k], n) && PathOf(rest[k], n) == path;
      assert rest[k] == items[k];
    }
  }

  // A problem is reported exactly when it is one.
  lemma {:induction false} ProblemsExactly(items: seq<Json>, n: Names, d: Difference)
    ensures d in Problems(items, n) <==> Malformed(items, d, n)
  {
    if items != [] {
      var i := |items| - 1;
      ProblemsExactly(items[..i], n, d);
      IndexFacts(items[..i], n);
      if d.Repeated? { RepeatedNext(items, d.path, n); }
    }
  }

  lemma ListedNext(items: seq<Json>, i: nat, n: Names)
    requires i < |items|
    ensures forall path :: Listed(items[..i + 1], path, n)
                           <==> Listed(items[..i], path, n) || (HasPath(items[i], n) && PathOf(items[i], n) == path)
  {
    assert items[..i + 1] == items[..i] + [items[i]];
    forall path | Listed(items[..i], path, n) ensures Listed(items[..i + 1], path, n) {
      var k :| 0 <= k < i && HasPath(items[..i][k], n) && PathOf(items[..i][k], n) == path;
      assert items[..i + 1][k] == items[..i][k];
    }
    if HasPath(items[i], n) {
      assert items[..i + 1][i] == items[i];
      assert Listed(items[..i + 1], PathOf(items[i], n), n);
    }
    forall path | Listed(items[..i + 1], path, n)
      ensures Listed(items[..i], path, n) || (HasPath(items[i], n) && PathOf(items[i], n) == path)
    {
      var k :| 0 <= k < i + 1 && HasPath(items[..i + 1][k], n) && PathOf(items[..i + 1][k], n) == path;
      if k < i {
        assert items[..i][k] == items[..i + 1][k];
      } else {
        assert items[..i + 1][k] == items[i];
      }
    }
  }

  lemma IndexableNext(items: seq<Json>, i: nat, n: Names)
    requires i < |items|
    ensures Indexable(items[..i + 1], n)
            <==> Indexable(items[..i], n) && HasPath(items[i], n) && !Listed(items[..i], PathOf(items[i], n), n)
  {
    var (a, b) := (items[..i + 1], items[..i]);
    assert a == b + [items[i]];
    if Indexable(a, n) {
      assert HasPath(a[i], n);
      forall k | 0 <= k < i ensures HasPath(b[k], n) && PathOf(b[k], n) != PathOf(items[i], n) {
        assert b[k] == a[k] && a[i] == items[i];
      }
      forall k, l | 0 <= k < l < i ensures PathOf(b[k], n) != PathOf(b[l], n) {
        assert b[k] == a[k] && b[l] == a[l];
      }
    }
  }

  // ---- Comparing ----

  predicate SortedTextsOf(s: seq<string>) {
    forall i, j :: 0 <= i < j < |s| ==> TextLe(s[i], s[j])
  }

  function PathOrder(items: seq<Json>, n: Names): seq<string> {
    if items == [] then []
    else
      var last := items[|items| - 1];
      PathOrder(items[..|items| - 1], n) + if HasPath(last, n) then [PathOf(last, n)] else []
  }

  predicate SameEntry(actual: Json, e: Entry, n: Names) {
    && actual.Obj? && PyEq(actual.Get(n.bytes), Int(e.bytes)) && PyEq(actual.Get(n.sha256), Str(e.sha256))
    && actual.fields.Keys <= {n.path, n.bytes, n.sha256}
  }

  // No difference, stated over the two manifests.
  ghost predicate Clean(e: Expected, actual: Json, n: Names) {
    && actual.Obj?
    && PyEq(actual.Get(n.schemaVersion), Str(e.schemaVersion)) && PyEq(actual.Get(n.policy), Obj(e.policy))
    && actual.Get(n.files).Arr? && CleanFiles(e.files, actual.Get(n.files).items, n)
    && actual.fields.Keys <= {n.schemaVersion, n.policy, n.files}
  }

  ghost predicate CleanFiles(files: seq<Entry>, items: seq<Json>, n: Names) {
    && Indexable(items, n) && SortedTextsOf(PathOrder(items, n))
    && AllMatched(files, items, n) && NoneExtra(files, items, n)
  }

  predicate Matched(e: Entry, items: seq<Json>, n: Names) {
    exists i :: 0 <= i < |items| && HasPath(items[i], n) && PathOf(items[i], n) == e.path && SameEntry(items[i], e, n)
  }

  function CompareEntry(actual: Json, e: Entry, n: Names): (ds: seq<Difference>)
    requires actual.Obj?
    ensures ds == [] <==> SameEntry(actual, e, n)
  {
    (if PyEq(actual.Get(n.bytes), Int(e.bytes)) then [] else [OtherBytes(e.path)])
    + (if PyEq(actual.Get(n.sha256), Str(e.sha256)) then [] else [OtherDigest(e.path)])
    + (if actual.fields.Keys <= {n.path, n.bytes, n.sha256} then [] else [ExtraFields(e.path)])
  }

  // What is wrong with the record of an expected entry.
  predicate Faulty(actual: map<string, Json>, e: Entry, d: Difference, n: Names)
    requires e.path in actual ==> actual[e.path].Obj?
  {
    if e.path !in actual then d == NotListed(e.path)
    else
      || (d == OtherBytes(e.path) && !PyEq(actual[e.path].Get(n.bytes), Int(e.bytes)))
      || (d == OtherDigest(e.path) && !PyEq(actual[e.path].Get(n.sha256), Str(e.sha256)))
      || (d == ExtraFields(e.path)
          && exists name :: name in actual[e.path].fields && name != n.path && name != n.bytes && name != n.sha256)
  }

  lemma EntryFaults(actual: map<string, Json>, e: Entry, n: Names, d: Difference)
    requires e.path in actual && actual[e.path].Obj?
    ensures d in CompareEntry(actual[e.path], e, n) <==> Faulty(actual, e, d, n)
  {
    var fields := actual[e.path].fields;
    assert fields.Keys <= {n.path, n.bytes, n.sha256}
      <==> !exists name :: name in fields && name != n.path && name != n.bytes && name != n.sha256;
  }

  // The differences of the expected entries, in order, and of other paths.
  function Compared(files: seq<Entry>, actual: map<string, Json>, n: Names): seq<Difference>
    requires forall path :: path in actual ==> actual[path].Obj?
  {
    if files == [] then []
    else
      var last := files[|files| - 1];
      Compared(files[..|files| - 1], actual, n)
      + if last.path in actual then CompareEntry(actual[last.path], last, n) else [NotListed(last.path)]
  }

  function Unselected(extra: seq<string>): (ds: seq<Difference>)
    ensures |ds| == |extra| && forall i :: 0 <= i < |ds| ==> ds[i] == NotSelected(extra[i])
  {
    if extra == [] then [] else Unselected(extra[..|extra| - 1]) + [NotSelected(extra[|extra| - 1])]
  }

  lemma {:induction false} NothingCompared(files: seq<Entry>, actual: map<string, Json>, n: Names)
    requires forall path :: path in actual ==> actual[path].Obj?
    ensures Compared(files, actual, n) == []
       <==> forall k :: 0 <= k < |files| ==> files[k].path in actual && SameEntry(actual[files[k].path], files[k], n)
  {
    if files != [] { NothingCompared(files[..|files| - 1], actual, n); }
  }

  // Exactly what is wrong with an expected entry is reported of it.
  lemma {:induction false} ComparedExactly(files: seq<Entry>, actual: map<string, Json>, n: Names, d: Difference)
    requires forall path :: path in actual ==> actual[path].Obj?
    ensures d in Compared(files, actual, n) <==> exists k :: 0 <= k < |files| && Faulty(actual, files[k], d, n)
  {
    if files != [] {
      var i := |files| - 1;
      ComparedExactly(files[..i], actual, n, d);
      if files[i].path in actual { EntryFaults(actual, files[i], n, d); }
      if exists k :: 0 <= k < |files| && Faulty(actual, files[k], d, n) {
        var k :| 0 <= k < |files| && Faulty(actual, files[k], d, n);
        if k < i { assert files[..i][k] == files[k]; }
      }
      if exists k :: 0 <= k < i && Faulty(actual, files[..i][k], d, n) {
        var k :| 0 <= k < i && Faulty(actual, files[..i][k], d, n);
        assert files[..i][k] == files[k];
      }
    }
  }

  function OtherPaths(files: seq<Entry>, actual: map<string, Json>): seq<string> {
    SortedTexts(actual.Keys - (set path | path in Paths(files)))
  }

  // The expected paths are sorted and do not repeat, so going through them in
  // sorted order is going through the entries.
  method CompareFiles(files: seq<Entry>, actual: map<string, Json>, n: Names) returns (ds: seq<Difference>)
    requires StrictlySorted(Paths(files))
    requires forall path :: path in actual ==> actual[path].Obj?
    ensures ds == [] <==>
            && (forall k :: 0 <= k < |files| ==> files[k].path in actual && SameEntry(actual[files[k].path], files[k], n))
            && (forall path :: path in actual ==> path in Paths(files))
    ensures ds == Compared(files, actual, n) + Unselected(OtherPaths(files, actual))
  {
    ds := [];
    var k := 0;
    while k < |files|
      invariant 0 <= k <= |files|
      invariant ds == Compared(files[..k], actual, n)
    {
      assert files[..k + 1][..k] == files[..k];
      var path := files[k].path;
      ds := ds + if path !in actual then [NotListed(path)] else CompareEntry(actual[path], files[k], n);
      k := k + 1;
    }
    assert files[..k] == files;
    var extra := OtherPaths(files, actual);
    ghost var before := ds;
    k := 0;
    while k < |extra|
      invariant 0 <= k <= |extra|
      invariant ds == before + Unselected(extra[..k])
    {
      assert extra[..k + 1][..k] == extra[..k];
      ds := ds + [NotSelected(extra[k])];
      k := k + 1;
    }
    assert extra[..k] == extra;
    NothingDiffers(files, actual, n);
  }

  lemma NothingDiffers(files: seq<Entry>, actual: map<string, Json>, n: Names)
    requires forall path :: path in actual ==> actual[path].Obj?
    ensures Compared(files, actual, n) + Unselected(OtherPaths(files, actual)) == [] <==>
            && (forall k :: 0 <= k < |files| ==> files[k].path in actual && SameEntry(actual[files[k].path], files[k], n))
            && (forall path :: path in actual ==> path in Paths(files))
  {
    NothingCompared(files, actual, n);
    NothingElse(files, actual);
  }

  lemma NothingElse(files: seq<Entry>, actual: map<string, Json>)
    ensures OtherPaths(files, actual) == [] <==> forall path :: path in actual ==> path in Paths(files)
  {
    var extra := OtherPaths(files, actual);
    forall path | path in actual && path !in Paths(files) ensures extra != [] {
      assert path in extra;
    }
    if extra != [] { assert extra[0] in extra; }
  }

  function FileDifferences(files: seq<Entry>, actual: Json, n: Names): seq<Difference> {
    var items := if actual.Arr? then actual.items else [];
    IndexFacts(items, n);
    (if actual.Arr? then Problems(items, n) else [NotAList])
    + (if SortedTextsOf(PathOrder(items, n)) then [] else [Unsorted])
    + (Compared(files, PathIndex(items, n), n) + Unselected(OtherPaths(files, PathIndex(items, n))))
  }

  lemma NoFileDifference(files: seq<Entry>, actual: Json, n: Names)
    ensures FileDifferences(files, actual, n) == [] <==> actual.Arr? && CleanFiles(files, actual.items, n)
  {
    var items := if actual.Arr? then actual.items else [];
    IndexFacts(items, n);
    NothingDiffers(files, PathIndex(items, n), n);
    if Indexable(items, n) {
      IndexedFiles(files, items, PathIndex(items, n), n);
    }
  }

  method DifferencesOfFiles(files: seq<Entry>, actual: Json, n: Names) returns (ds: seq<Difference>)
    requires StrictlySorted(Paths(files))
    ensures ds == [] <==> actual.Arr? && CleanFiles(files, actual.items, n)
    ensures ds == FileDifferences(files, actual, n)
  {
    var indexed, problems := FileIndex(actual, n);
    var items := if actual.Arr? then actual.items else [];
    var order := if SortedTextsOf(PathOrder(items, n)) then [] else [Unsorted];
    var differences := CompareFiles(files, indexed, n);
    ds := problems + order + differences;
    NoFileDifference(files, actual, n);
  }

  function TopDifferences(e: Expected, actual: Json, n: Names): seq<Difference>
    requires actual.Obj?
  {
    (if PyEq(actual.Get(n.schemaVersion), Str(e.schemaVersion)) then [] else [OtherField(n.schemaVersion)])
    + (if PyEq(actual.Get(n.policy), Obj(e.policy)) then [] else [OtherField(n.policy)])
  }

  function Differences(e: Expected, actual: Json, n: Names): seq<Difference> {
    if !actual.Obj? then [NotAnObject]
    else TopDifferences(e, actual, n) + FileDifferences(e.files, actual.Get(n.files), n)
         + (if actual.fields.Keys <= {n.schemaVersion, n.policy, n.files} then [] else [ExtraTopLevel])
  }

  lemma NoDifference(e: Expected, actual: Json, n: Names)
    ensures Differences(e, actual, n) == [] <==> Clean(e, actual, n)
  {
    if actual.Obj? { NoFileDifference(e.files, actual.Get(n.files), n); }
  }

  method ManifestDifferences(e: Expected, actual: Json, n: Names) returns (ds: seq<Difference>)
    requires StrictlySorted(Paths(e.files))
    ensures ds == [] <==> Clean(e, actual, n)
    ensures ds == Differences(e, actual, n)
  {
    NoDifference(e, actual, n);
    if !actual.Obj? { return [NotAnObject]; }
    var fields := [];
    if !PyEq(actual.Get(n.schemaVersion), Str(e.schemaVersion)) { fields := fields + [OtherField(n.schemaVersion)]; }
    if !PyEq(actual.Get(n.policy), Obj(e.policy)) { fields := fields + [OtherField(n.policy)]; }
    assert fields == TopDifferences(e, actual, n);
    var files := DifferencesOfFiles(e.files, actual.Get(n.files), n);
    var top := if actual.fields.Keys <= {n.schemaVersion, n.policy, n.files} then [] else [ExtraTopLevel];
    ds := fields + files + top;
  }

  // Comparing through the index is comparing the lists.
  lemma IndexedFiles(files: seq<Entry>, items: seq<Json>, indexed: map<string, Json>, n: Names)
    requires Indexable(items, n)
    requires forall path :: path in indexed <==> Listed(items, path, n)
    requires forall i :: 0 <= i < |items| ==> PathOf(items[i], n) in indexed && indexed[PathOf(items[i], n)] == items[i]
    ensures forall k :: 0 <= k < |files| ==>
              (Matched(files[k], items, n) <==>
               files[k].path in indexed && SameEntry(indexed[files[k].path], files[k], n))
    ensures NoneExtra(files, items, n) <==> forall path :: path in indexed ==> path in Paths(files)
  {
    if NoneExtra(files, items, n) {
      forall path | path in indexed ensures path in Paths(files) {
        var i :| 0 <= i < |items| && HasPath(items[i], n) && PathOf(items[i], n) == path;
      }
    }
    forall k | 0 <= k < |files| && files[k].path in indexed && SameEntry(indexed[files[k].path], files[k], n)
      ensures Matched(files[k], items, n)
    {
      var i :| 0 <= i < |items| && HasPath(items[i], n) && PathOf(items[i], n) == files[k].path;
      assert SameEntry(items[i], files[k], n);
    }
  }

  // ---- No difference means equality ----

  lemma {:induction false} PathOrderAt(items: seq<Json>, n: Names)
    requires forall i :: 0 <= i < |items| ==> HasPath(items[i], n)
    ensures |PathOrder(items, n)| == |items|
    ensures forall i :: 0 <= i < |items| ==> PathOrder(items, n)[i] == PathOf(items[i], n)
  {
    if items != [] {
      PathOrderAt(items[..|items| - 1], n);
    }
  }

  lemma EntryIsEqual(actual: Json, e: Entry, n: Names)
    requires Different(n)
    ensures PyEq(actual, Obj(EntryFields(e, n))) <==>
            HasPath(actual, n) && PathOf(actual, n) == e.path && SameEntry(actual, e, n)
  {
    var f := EntryFields(e, n);
    assert f[n.path] == Str(e.path) && f[n.bytes] == Int(e.bytes) && f[n.sha256] == Str(e.sha256);
    assert f.Keys == {n.path, n.bytes, n.sha256};
  }

  lemma StrictIsSortedAndDistinct(s: seq<string>)
    requires StrictlySorted(s)
    ensures SortedTextsOf(s) && Distinct(s)
  {
  }

  lemma SortedDistinctIsStrict(s: seq<string>)
    requires SortedTextsOf(s) && Distinct(s)
    ensures StrictlySorted(s)
  {
  }

  predicate AllMatched(files: seq<Entry>, items: seq<Json>, n: Names) {
    forall k :: 0 <= k < |files| ==> Matched(files[k], items, n)
  }

  predicate NoneExtra(files: seq<Entry>, items: seq<Json>, n: Names) {
    forall i :: 0 <= i < |items| && HasPath(items[i], n) ==> PathOf(items[i], n) in Paths(files)
  }

  predicate Aligned(files: seq<Entry>, items: seq<Json>, n: Names) {
    |items| == |files| && forall i :: 0 <= i < |files| ==> HasPath(items[i], n) && PathOf(items[i], n) == files[i].path
  }

  lemma OrderIsDistinct(items: seq<Json>, n: Names)
    requires Indexable(items, n)
    ensures Distinct(PathOrder(items, n))
  {
    PathOrderAt(items, n);
  }

  lemma SameElements(files: seq<Entry>, items: seq<Json>, n: Names, path: string)
    requires Indexable(items, n) && AllMatched(files, items, n) && NoneExtra(files, items, n)
    ensures path in PathOrder(items, n) <==> path in Paths(files)
  {
    var order, paths := PathOrder(items, n), Paths(files);
    PathOrderAt(items, n);
    if path in order {
      var i :| 0 <= i < |order| && order[i] == path;
      assert HasPath(items[i], n) && PathOf(items[i], n) == path;
    }
    if path in paths {
      var k :| 0 <= k < |paths| && paths[k] == path;
      assert Matched(files[k], items, n);
      var i :| 0 <= i < |items| && HasPath(items[i], n) && PathOf(items[i], n) == files[k].path;
      assert order[i] == path;
    }
  }

  lemma SameOrderAligns(files: seq<Entry>, items: seq<Json>, n: Names)
    requires Indexable(items, n) && PathOrder(items, n) == Paths(files)
    ensures Aligned(files, items, n)
  {
    PathOrderAt(items, n);
    assert forall i :: 0 <= i < |files| ==> PathOrder(items, n)[i] == Paths(files)[i];
  }

  // Sorted, without repetition, and with the same paths: the same sequence.
  lemma CleanFilesAlign(files: seq<Entry>, items: seq<Json>, n: Names)
    requires StrictlySorted(Paths(files)) && CleanFiles(files, items, n)
    ensures Aligned(files, items, n)
  {
    forall path ensures path in PathOrder(items, n) <==> path in Paths(files) {
      SameElements(files, items, n, path);
    }
    OrderIsDistinct(items, n);
    SortedDistinctIsStrict(PathOrder(items, n));
    StrictlySortedIsUnique(PathOrder(items, n), Paths(files));
    SameOrderAligns(files, items, n);
  }

  lemma AlignedOrder(files: seq<Entry>, items: seq<Json>, n: Names)
    requires Aligned(files, items, n)
    ensures PathOrder(items, n) == Paths(files) && NoneExtra(files, items, n)
    ensures Distinct(Paths(files)) ==> Indexable(items, n)
  {
    PathOrderAt(items, n);
    assert forall i :: 0 <= i < |files| ==> PathOrder(items, n)[i] == Paths(files)[i];
  }

  // Entries that match somewhere match in their own place.
  lemma MatchedIsAligned(files: seq<Entry>, items: seq<Json>, n: Names, i: nat)
    requires Indexable(items, n) && AllMatched(files, items, n) && Aligned(files, items, n) && i < |files|
    ensures SameEntry(items[i], files[i], n)
  {
    assert Matched(files[i], items, n);
    var k :| 0 <= k < |items| && HasPath(items[k], n) && PathOf(items[k], n) == files[i].path && SameEntry(items[k], files[i], n);
    assert k == i;
  }

  lemma EqualEntriesAlign(files: seq<Entry>, items: seq<Json>, n: Names)
    requires Different(n) && |items| == |files|
    requires forall i :: 0 <= i < |files| ==> EqualEntry(items[i], files[i], n)
    ensures Aligned(files, items, n) && AllMatched(files, items, n)
  {
    forall i | 0 <= i < |files|
      ensures HasPath(items[i], n) && PathOf(items[i], n) == files[i].path && Matched(files[i], items, n)
    {
      EntryIsEqual(items[i], files[i], n);
    }
  }

  lemma AlignedIsClean(files: seq<Entry>, items: seq<Json>, n: Names)
    requires StrictlySorted(Paths(files)) && Aligned(files, items, n) && AllMatched(files, items, n)
    ensures CleanFiles(files, items, n)
  {
    StrictIsSortedAndDistinct(Paths(files));
    AlignedOrder(files, items, n);
  }

  lemma AlignedAreEqual(files: seq<Entry>, items: seq<Json>, n: Names)
    requires Different(n) && Indexable(items, n) && AllMatched(files, items, n) && Aligned(files, items, n)
    ensures forall i :: 0 <= i < |files| ==> EqualEntry(items[i], files[i], n)
  {
    forall i | 0 <= i < |files| ensures EqualEntry(items[i], files[i], n) {
      MatchedIsAligned(files, items, n, i);
      EntryIsEqual(items[i], files[i], n);
    }
  }

  predicate EqualEntry(actual: Json, e: Entry, n: Names) {
    PyEq(actual, Obj(EntryFields(e, n)))
  }

  lemma ListsAreEqual(files: seq<Entry>, items: seq<Json>, n: Names)
    ensures PyEq(Arr(items), Arr(Entries(files, n))) <==>
            |items| == |files| && forall i :: 0 <= i < |files| ==> EqualEntry(items[i], files[i], n)
  {
    if PyEq(Arr(items), Arr(Entries(files, n))) {
      forall i | 0 <= i < |files| ensures EqualEntry(items[i], files[i], n) {
        assert PyEq(items[i], Entries(files, n)[i]);
      }
    }
  }

  lemma FilesAreEqual(files: seq<Entry>, items: seq<Json>, n: Names)
    requires Different(n) && StrictlySorted(Paths(files))
    ensures CleanFiles(files, items, n) <==> PyEq(Arr(items), Arr(Entries(files, n)))
  {
    ListsAreEqual(files, items, n);
    if CleanFiles(files, items, n) {
      CleanFilesAlign(files, items, n);
      AlignedAreEqual(files, items, n);
    } else if PyEq(Arr(items), Arr(Entries(files, n))) {
      EqualEntriesAlign(files, items, n);
      AlignedIsClean(files, items, n);
    }
  }

  // The comparison finds nothing if and only if the stored manifest equals the
  // expected one, with Python's equality of JSON values.
  lemma NoDifferenceMeansEqual(e: Expected, actual: Json, n: Names)
    requires Different(n) && StrictlySorted(Paths(e.files))
    ensures Clean(e, actual, n) <==> PyEq(actual, AsJson(e, n))
  {
    if actual.Obj? && actual.Get(n.files).Arr? {
      FilesAreEqual(e.files, actual.Get(n.files).items, n);
      assert PyEq(actual.Get(n.files), Arr(Entries(e.files, n))) <==> CleanFiles(e.files, actual.Get(n.files).items, n);
    }
    EqualByFields(actual, Str(e.schemaVersion), Obj(e.policy), Arr(Entries(e.files, n)), n);
  }

  lemma EqualByFields(actual: Json, schemaVersion: Json, policy: Json, files: Json, n: Names)
    requires Different(n) && schemaVersion.Str? && policy.Obj? && files.Arr?
    ensures PyEq(actual, Obj(map[n.schemaVersion := schemaVersion, n.policy := policy, n.files := files])) <==>
            && actual.Obj? && PyEq(actual.Get(n.schemaVersion), schemaVersion) && PyEq(actual.Get(n.policy), policy)
            && PyEq(actual.Get(n.files), files) && actual.fields.Keys <= {n.schemaVersion, n.policy, n.files}
  {
    var f := map[n.schemaVersion := schemaVersion, n.policy := policy, n.files := files];
    assert f[n.schemaVersion] == schemaVersion && f[n.policy] == policy && f[n.files] == files;
    assert f.Keys == {n.schemaVersion, n.policy, n.files};
  }

  // Not so for equality of the JSON texts: a byte count of 1 stored as `true`
  // is not noticed.
  lemma TrueIsTakenForOne(sha: string, n: Names)
    requires Different(n)
    ensures var e := Expected("v", map[], [Entry("a", 1, sha)]);
            var stored := Obj(map[n.schemaVersion := Str("v"), n.policy := Obj(map[]),
                                  n.files := Arr([Obj(map[n.path := Str("a"), n.bytes := Bool(true), n.sha256 := Str(sha)])])]);
            stored != AsJson(e, n) && Clean(e, stored, n)
  {
    var e := Expected("v", map[], [Entry("a", 1, sha)]);
    var entry := map[n.path := Str("a"), n.bytes := Bool(true), n.sha256 := Str(sha)];
    var stored := Obj(map[n.schemaVersion := Str("v"), n.policy := Obj(map[]), n.files := Arr([Obj(entry)])]);
    EntryIsEqual(Obj(entry), e.files[0], n);
    assert entry[n.bytes] != EntryFields(e.files[0], n)[n.bytes];
    assert stored.fields[n.files].items[0] != Entries(e.files, n)[0];
    AlignedIsClean(e.files, [Obj(entry)], n);
    assert PyEq(Obj(map[]), Obj(e.policy));
  }
}
