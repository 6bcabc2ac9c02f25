// Which differences a manifest comparison reports, exactly, told from the two
// manifests alone.
module ManifestReports {
  import opened Basics
  import opened JsonTree
  import opened Manifest


  ghost predicate OutOfOrder(items: seq<Json>, n: Names) {
    exists i, k :: 0 <= i < k < |items| && HasPath(items[i], n) && HasPath(items[k], n)
                   && !TextLe(PathOf(items[i], n), PathOf(items[k], n))
  }

  // Records without a path have no place in the order.
  lemma {:induction false} OrderPlaces(items: seq<Json>, n: Names, p: string)
    ensures p in PathOrder(items, n) <==> Listed(items, p, n)
  {
    if items != [] {
      OrderPlaces(items[..|items| - 1], n, p);
      ListedNext(items, |items| - 1, n);
      assert items[..|items| - 1 + 1] == items;
    }
  }

  lemma SortedNext(s: seq<string>, p: string)
    ensures SortedTextsOf(s + [p]) <==> SortedTextsOf(s) && forall q :: q in s ==> TextLe(q, p)
  {
    var t := s + [p];
    if SortedTextsOf(t) {
      forall i, j | 0 <= i < j < |s| ensures TextLe(s[i], s[j]) { assert t[i] == s[i] && t[j] == s[j]; }
      forall q | q in s ensures TextLe(q, p) {
        var i :| 0 <= i < |s| && s[i] == q;
        assert t[i] == q && t[|s|] == p;
      }
    }
    if SortedTextsOf(s) && forall q :: q in s ==> TextLe(q, p) {
      forall i, j | 0 <= i < j < |t| ensures TextLe(t[i], t[j]) {
        assert t[i] == s[i] && s[i] in s;
      }
    }
  }

  lemma {:induction false} UnsortedExactly(items: seq<Json>, n: Names)
    ensures !SortedTextsOf(PathOrder(items, n)) <==> OutOfOrder(items, n)
  {
    if items != [] {
      var (i, rest) := (|items| - 1, items[..|items| - 1]);
      UnsortedExactly(rest, n);
      if HasPath(items[i], n) {
        SortedNext(PathOrder(rest, n), PathOf(items[i], n));
        forall p ensures p in PathOrder(rest, n) <==> Listed(rest, p, n) { OrderPlaces(rest, n, p); }
      } else {
        assert PathOrder(rest, n) + [] == PathOrder(rest, n);
      }
      OutOfOrderNext(items, n);
    }
  }

  lemma LastOutOfOrder(items: seq<Json>, n: Names)
    requires items != [] && OutOfOrder(items, n) && !OutOfOrder(items[..|items| - 1], n)
    ensures var (rest, last) := (items[..|items| - 1], items[|items| - 1]);
            HasPath(last, n) && exists q :: Listed(rest, q, n) && !TextLe(q, PathOf(last, n))
  {
    var (i, rest) := (|items| - 1, items[..|items| - 1]);
    var k, l :| 0 <= k < l < |items| && HasPath(items[k], n) && HasPath(items[l], n)
                && !TextLe(PathOf(items[k], n), PathOf(items[l], n));
    assert rest[k] == items[k];
    assert Listed(rest, PathOf(items[k], n), n);
  }

  lemma StillOutOfOrder(items: seq<Json>, n: Names)
    requires items != [] && OutOfOrder(items[..|items| - 1], n)
    ensures OutOfOrder(items, n)
  {
    var rest := items[..|items| - 1];
    var k, l :| 0 <= k < l < |rest| && HasPath(rest[k], n) && HasPath(rest[l], n)
                && !TextLe(PathOf(rest[k], n), PathOf(rest[l], n));
    assert rest[k] == items[k] && rest[l] == items[l];
  }

  lemma NowOutOfOrder(items: seq<Json>, n: Names, q: string)
    requires items != [] && HasPath(items[|items| - 1], n) && Listed(items[..|items| - 1], q, n)
    requires !TextLe(q, PathOf(items[|items| - 1], n))
    ensures OutOfOrder(items, n)
  {
    var rest := items[..|items| - 1];
    var k :| 0 <= k < |rest| && HasPath(rest[k], n) && PathOf(rest[k], n) == q;
    assert rest[k] == items[k];
  }

  lemma OutOfOrderNext(items: seq<Json>, n: Names)
    requires items != []
    ensures var (rest, last) := (items[..|items| - 1], items[|items| - 1]);
            OutOfOrder(items, n) <==>
              OutOfOrder(rest, n)
              || (HasPath(last, n) && exists q :: Listed(rest, q, n) && !TextLe(q, PathOf(last, n)))
  {
    var (rest, last) := (items[..|items| - 1], items[|items| - 1]);
    if OutOfOrder(rest, n) {
      StillOutOfOrder(items, n);
    } else if OutOfOrder(items, n) {
      LastOutOfOrder(items, n);
    } else if HasPath(last, n) {
      forall q | Listed(rest, q, n) ensures TextLe(q, PathOf(last, n)) {
        if !TextLe(q, PathOf(last, n)) { NowOutOfOrder(items, n, q); }
      }
    }
  }

  // The first record with a path stands for it.
  predicate StandsFor(items: seq<Json>, path: string, i: nat, n: Names) {
    i < |items| && Has(items[i], path, n) && forall k :: 0 <= k < i ==> !Has(items[k], path, n)
  }

  lemma {:induction false} IndexedIsFirst(items: seq<Json>, path: string, n: Names, i: nat)
    requires StandsFor(items, path, i, n)
    ensures path in PathIndex(items, n) && PathIndex(items, n)[path] == items[i]
  {
    var m := |items| - 1;
    IndexFacts(items[..m], n);
    if i < m {
      assert StandsFor(items[..m], path, i, n);
      IndexedIsFirst(items[..m], path, n, i);
    } else {
      forall k | 0 <= k < m ensures !Has(items[..m][k], path, n) { assert items[..m][k] == items[k]; }
    }
  }

  // What is wrong with the files, told from the two lists alone.
  ghost predicate FileFault(files: seq<Entry>, items: seq<Json>, d: Difference, n: Names) {
    match d
    case NotAnEntry(_) => Malformed(items, d, n)
    case NoPath(_) => Malformed(items, d, n)
    case Repeated(_) => Malformed(items, d, n)
    case Unsorted => OutOfOrder(items, n)
    case NotListed(path) => (exists k :: 0 <= k < |files| && files[k].path == path) && !Listed(items, path, n)
    case OtherBytes(path) =>
      exists k: nat, i: nat :: 0 <= k < |files| && files[k].path == path && StandsFor(items, path, i, n)
                     && !PyEq(items[i].Get(n.bytes), Int(files[k].bytes))
    case OtherDigest(path) =>
      exists k: nat, i: nat :: 0 <= k < |files| && files[k].path == path && StandsFor(items, path, i, n)
                     && !PyEq(items[i].Get(n.sha256), Str(files[k].sha256))
    case ExtraFields(path) =>
      exists k: nat, i: nat, name :: 0 <= k < |files| && files[k].path == path && StandsFor(items, path, i, n)
                           && name in items[i].fields && name != n.path && name != n.bytes && name != n.sha256
    case NotSelected(path) => Listed(items, path, n) && forall k :: 0 <= k < |files| ==> files[k].path != path
    case _ => false
  }

  lemma {:induction false} FirstOfPath(items: seq<Json>, path: string, n: Names) returns (i: nat)
    requires Listed(items, path, n)
    ensures StandsFor(items, path, i, n)
  {
    var m := |items| - 1;
    if Listed(items[..m], path, n) {
      i := FirstOfPath(items[..m], path, n);
      forall k | 0 <= k < i ensures !Has(items[k], path, n) { assert items[..m][k] == items[k]; }
    } else {
      i := m;
      forall k | 0 <= k < i ensures !Has(items[k], path, n) {
        assert items[..m][k] == items[k];
      }
    }
  }

  lemma OtherPathsAre(files: seq<Entry>, actual: map<string, Json>, path: string)
    ensures path in OtherPaths(files, actual)
       <==> path in actual && forall k :: 0 <= k < |files| ==> files[k].path != path
  {
    if path in Paths(files) {
      var k :| 0 <= k < |files| && Paths(files)[k] == path;
      assert files[k].path == path;
    } else {
      forall k | 0 <= k < |files| ensures files[k].path != path { assert Paths(files)[k] in Paths(files); }
    }
  }

  // What is compared is the first record of each path.
  lemma FaultsOfFirst(files: seq<Entry>, items: seq<Json>, n: Names, d: Difference, k: nat)
    requires k < |files| && forall path :: path in PathIndex(items, n) ==> PathIndex(items, n)[path].Obj?
    requires Faulty(PathIndex(items, n), files[k], d, n)
    ensures FileFault(files, items, d, n)
  {
    var e := files[k];
    IndexFacts(items, n);
    if Listed(items, e.path, n) {
      var i := FirstOfPath(items, e.path, n);
      IndexedIsFirst(items, e.path, n, i);
    }
  }

  lemma FirstsAreFaulty(files: seq<Entry>, items: seq<Json>, n: Names, d: Difference) returns (k: nat)
    requires d.NotListed? || d.OtherBytes? || d.OtherDigest? || d.ExtraFields?
    requires FileFault(files, items, d, n)
    requires forall path :: path in PathIndex(items, n) ==> PathIndex(items, n)[path].Obj?
    ensures k < |files| && Faulty(PathIndex(items, n), files[k], d, n)
  {
    IndexFacts(items, n);
    match d
    case NotListed(path) => k :| 0 <= k < |files| && files[k].path == path;
    case OtherBytes(path) =>
      var j: nat, i: nat :| 0 <= j < |files| && files[j].path == path && StandsFor(items, path, i, n)
                            && !PyEq(items[i].Get(n.bytes), Int(files[j].bytes));
      IndexedIsFirst(items, path, n, i);
      k := j;
    case OtherDigest(path) =>
      var j: nat, i: nat :| 0 <= j < |files| && files[j].path == path && StandsFor(items, path, i, n)
                            && !PyEq(items[i].Get(n.sha256), Str(files[j].sha256));
      IndexedIsFirst(items, path, n, i);
      k := j;
    case ExtraFields(path) =>
      var j: nat, i: nat, name :| 0 <= j < |files| && files[j].path == path && StandsFor(items, path, i, n)
                                  && name in items[i].fields && name != n.path && name != n.bytes && name != n.sha256;
      IndexedIsFirst(items, path, n, i);
      k := j;
  }

  // Of the files, a difference is reported if and only if it is there.
  lemma FileDifferencesExactly(files: seq<Entry>, items: seq<Json>, n: Names, d: Difference)
    ensures d in FileDifferences(files, Arr(items), n) <==> FileFault(files, items, d, n)
  {
    IndexFacts(items, n);
    ProblemsExactly(items, n, d);
    UnsortedExactly(items, n);
    ComparedFaults(files, items, n, d);
    UnselectedFaults(files, items, n, d);
  }

  predicate OfAnEntry(d: Difference) {
    d.NotListed? || d.OtherBytes? || d.OtherDigest? || d.ExtraFields?
  }

  lemma ComparedFaults(files: seq<Entry>, items: seq<Json>, n: Names, d: Difference)
    requires forall path :: path in PathIndex(items, n) ==> PathIndex(items, n)[path].Obj?
    ensures d in Compared(files, PathIndex(items, n), n) <==> OfAnEntry(d) && FileFault(files, items, d, n)
  {
    var index := PathIndex(items, n);
    ComparedExactly(files, index, n, d);
    if d in Compared(files, index, n) {
      var k :| 0 <= k < |files| && Faulty(index, files[k], d, n);
      FaultsOfFirst(files, items, n, d, k);
    }
    if OfAnEntry(d) && FileFault(files, items, d, n) {
      var k := FirstsAreFaulty(files, items, n, d);
    }
  }

  lemma UnselectedFaults(files: seq<Entry>, items: seq<Json>, n: Names, d: Difference)
    ensures d in Unselected(OtherPaths(files, PathIndex(items, n))) <==> d.NotSelected? && FileFault(files, items, d, n)
  {
    IndexFacts(items, n);
    if d.NotSelected? { OtherPathsAre(files, PathIndex(items, n), d.path); }
    UnselectedAre(OtherPaths(files, PathIndex(items, n)), d);
  }

  lemma UnselectedAre(extra: seq<string>, d: Difference)
    ensures d in Unselected(extra) <==> d.NotSelected? && d.path in extra
  {
    if d.NotSelected? && d.path in extra {
      var i :| 0 <= i < |extra| && extra[i] == d.path;
      assert Unselected(extra)[i] == d;
    }
  }

  ghost predicate TopFault(e: Expected, actual: Json, d: Difference, n: Names)
    requires actual.Obj?
  {
    || (d == OtherField(n.schemaVersion) && !PyEq(actual.Get(n.schemaVersion), Str(e.schemaVersion)))
    || (d == OtherField(n.policy) && !PyEq(actual.Get(n.policy), Obj(e.policy)))
  }

  lemma TopDifferencesExactly(e: Expected, actual: Json, n: Names, d: Difference)
    requires actual.Obj?
    ensures d in TopDifferences(e, actual, n) <==> TopFault(e, actual, d, n)
  {
  }

  ghost predicate HasOwnFields(actual: Json, n: Names)
    requires actual.Obj?
  {
    exists name :: name in actual.fields && name != n.schemaVersion && name != n.policy && name != n.files
  }

  lemma OwnFieldsExactly(actual: Json, n: Names)
    requires actual.Obj?
    ensures !(actual.fields.Keys <= {n.schemaVersion, n.policy, n.files}) <==> HasOwnFields(actual, n)
  {
  }

  lemma InThree<T>(a: seq<T>, b: seq<T>, c: seq<T>, x: T)
    ensures x in a + b + c <==> x in a || x in b || x in c
  {
  }

  // Of the manifest as a whole: the two fields that differ, what is wrong with
  // the files, and that there are fields of its own.
  lemma DifferencesExactly(e: Expected, actual: Json, n: Names, d: Difference)
    requires actual.Obj? && actual.Get(n.files).Arr?
    ensures d in Differences(e, actual, n) <==>
              || TopFault(e, actual, d, n)
              || FileFault(e.files, actual.Get(n.files).items, d, n)
              || (d == ExtraTopLevel && HasOwnFields(actual, n))
  {
    FileDifferencesExactly(e.files, actual.Get(n.files).items, n, d);
    TopDifferencesExactly(e, actual, n, d);
    OwnFieldsExactly(actual, n);
    InThree(TopDifferences(e, actual, n), FileDifferences(e.files, actual.Get(n.files), n),
            if actual.fields.Keys <= {n.schemaVersion, n.policy, n.files} then [] else [ExtraTopLevel], d);
  }
}
