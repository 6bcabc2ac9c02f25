// Shared vocabulary: optional values, results, and the Python text operations
// the modelled code relies on.
module Basics {

  datatype Option<+T> = None | Some(value: T)

  datatype Result<+T, +E> = Ok(value: T) | Err(error: E)

  // str.isspace for a single character, as str.strip() uses it.
  predicate IsSpace(c: char) {
    || c in "\t\n\r "
    || c as int in {0x0b, 0x0c, 0x1c, 0x1d, 0x1e, 0x1f, 0x85, 0xa0, 0x1680}
    || 0x2000 <= c as int <= 0x200a
    || c as int in {0x2028, 0x2029, 0x202f, 0x205f, 0x3000}
  }

  // The code points with the Unicode property, as Python has it.
  lemma SpacesExactly(c: char)
    ensures IsSpace(c) <==>
              c as int in {9, 10, 11, 12, 13, 28, 29, 30, 31, 32, 133, 160, 5760, 8192, 8193, 8194, 8195, 8196, 8197, 8198,
                           8199, 8200, 8201, 8202, 8232, 8233, 8239, 8287, 12288}
  {
  }

  predicate Stripped(s: string) {
    s == "" || (!IsSpace(s[0]) && !IsSpace(s[|s| - 1]))
  }

  function LStrip(s: string): (r: string)
    ensures r == "" || !IsSpace(r[0])
    ensures Stripped(s) ==> r == s
  {
    if s != "" && IsSpace(s[0]) then LStrip(s[1..]) else s
  }

  function RStrip(s: string): (r: string)
    ensures r <= s
    ensures r == "" || !IsSpace(r[|r| - 1])
    ensures Stripped(s) ==> r == s
  {
    if s != "" && IsSpace(s[|s| - 1]) then RStrip(s[..|s| - 1]) else s
  }

  // str.strip(): the result never starts or ends with white space, so that
  // stripping again changes nothing.
  function Strip(s: string): (r: string)
    ensures Stripped(r)
    ensures Stripped(s) ==> r == s
  {
    RStrip(LStrip(s))
  }

  predicate Blank(s: string) {
    Strip(s) == ""
  }

  // Lowercase hexadecimal digits, n of them.
  predicate Hex(s: string, n: nat) {
    |s| == n && forall i :: 0 <= i < |s| ==> s[i] in "0123456789abcdef"
  }

  lemma HexExactly(s: string, n: nat)
    ensures Hex(s, n) <==> |s| == n && forall i :: 0 <= i < n ==> '0' <= s[i] <= '9' || 'a' <= s[i] <= 'f'
  {
    if |s| == n {
      forall i | 0 <= i < n ensures s[i] in "0123456789abcdef" <==> '0' <= s[i] <= '9' || 'a' <= s[i] <= 'f' {
        HexDigit(s[i]);
      }
    }
  }

  lemma HexDigit(c: char)
    ensures c in "0123456789abcdef" <==> '0' <= c <= '9' || 'a' <= c <= 'f'
  {
    var digits := "0123456789abcdef";
    if '0' <= c <= '9' {
      assert digits[c as int - '0' as int] == c;
    } else if 'a' <= c <= 'f' {
      assert digits[10 + (c as int - 'a' as int)] == c;
    }
  }

  predicate Distinct<T(==)>(s: seq<T>) {
    forall i, j :: 0 <= i < j < |s| ==> s[i] != s[j]
  }

  // Python compares text by code point, first difference first.
  predicate TextLe(a: string, b: string) {
    if a == "" then true
    else if b == "" then false
    else a[0] < b[0] || (a[0] == b[0] && TextLe(a[1..], b[1..]))
  }

  lemma {:induction false} TextLeTransitive(a: string, b: string, c: string)
    requires TextLe(a, b) && TextLe(b, c)
    ensures TextLe(a, c)
  {
    if a != "" && a[0] == b[0] == c[0] {
      TextLeTransitive(a[1..], b[1..], c[1..]);
    }
  }

  lemma {:induction false} TextLeAntisymmetric(a: string, b: string)
    requires TextLe(a, b) && TextLe(b, a)
    ensures a == b
  {
    if a != "" {
      TextLeAntisymmetric(a[1..], b[1..]);
      assert a == [a[0]] + a[1..] && b == [b[0]] + b[1..];
    }
  }

  lemma {:induction false} TextLeTotal(a: string, b: string)
    ensures TextLe(a, b) || TextLe(b, a)
  {
    if a != "" && b != "" && a[0] == b[0] {
      TextLeTotal(a[1..], b[1..]);
    }
  }

  predicate SmallerAt(a: string, b: string, i: nat) {
    i < |a| && i < |b| && a[..i] == b[..i] && a[i] < b[i]
  }

  // One text comes before another if it is a prefix of it, or has the smaller
  // character at the first place where they differ.
  ghost predicate Precedes(a: string, b: string) {
    a <= b || exists i: nat :: SmallerAt(a, b, i)
  }

  lemma SmallerBehind(c: char, x: string, y: string, i: nat)
    ensures SmallerAt([c] + x, [c] + y, i + 1) <==> SmallerAt(x, y, i)
  {
    var (a, b) := ([c] + x, [c] + y);
    if i <= |x| && i <= |y| {
      assert a[..i + 1] == [c] + x[..i] && b[..i + 1] == [c] + y[..i];
      assert a[..i + 1][1..] == x[..i] && b[..i + 1][1..] == y[..i];
    }
  }

  lemma PrecedesBehind(c: char, x: string, y: string)
    ensures Precedes([c] + x, [c] + y) <==> Precedes(x, y)
  {
    forall i: nat ensures SmallerAt([c] + x, [c] + y, i + 1) <==> SmallerAt(x, y, i) { SmallerBehind(c, x, y, i); }
    if exists i: nat :: SmallerAt(x, y, i) {
      var i: nat :| SmallerAt(x, y, i);
      assert SmallerAt([c] + x, [c] + y, i + 1);
    }
    if exists i: nat :: SmallerAt([c] + x, [c] + y, i) {
      var i: nat :| SmallerAt([c] + x, [c] + y, i);
      assert i > 0 && SmallerAt(x, y, i - 1);
    }
    assert ([c] + x)[1..] == x && ([c] + y)[1..] == y;
    assert [c] + x <= [c] + y <==> x <= y by {
      if x <= y { assert [c] + x == ([c] + y)[..|x| + 1]; }
      if [c] + x <= [c] + y { assert x == ([c] + y)[..|x| + 1][1..] == y[..|x|]; }
    }
  }

  lemma FirstDecides(a: string, b: string)
    requires a != "" && b != "" && a[0] != b[0]
    ensures Precedes(a, b) <==> a[0] < b[0]
  {
    if a[0] < b[0] {
      assert SmallerAt(a, b, 0);
    }
    if exists i: nat :: SmallerAt(a, b, i) {
      var i: nat :| SmallerAt(a, b, i);
      FirstSame(a, b, i);
    }
  }

  lemma FirstSame(a: string, b: string, i: nat)
    requires SmallerAt(a, b, i)
    ensures i == 0 || a[0] == b[0]
  {
    if i > 0 {
      assert a[..i][0] == a[0] && b[..i][0] == b[0];
    }
  }

  lemma {:induction false} TextLeExactly(a: string, b: string)
    ensures TextLe(a, b) <==> Precedes(a, b)
  {
    if a != "" && b != "" {
      if a[0] == b[0] {
        TextLeExactly(a[1..], b[1..]);
        PrecedesBehind(a[0], a[1..], b[1..]);
        assert a == [a[0]] + a[1..] && b == [a[0]] + b[1..];
      } else {
        FirstDecides(a, b);
      }
    }
  }

  predicate Least(s: set<string>, m: string) {
    m in s && forall other <- s :: TextLe(m, other)
  }

  lemma {:induction false} LeastExists(s: set<string>)
    requires s != {}
    ensures exists m :: Least(s, m)
  {
    var x :| x in s;
    var rest := s - {x};
    if rest == {} {
      TextLeTotal(x, x);
      assert s == {x};
      assert Least(s, x);
    } else {
      LeastExists(rest);
      var m :| Least(rest, m);
      TextLeTotal(x, m);
      TextLeTotal(x, x);
      if TextLe(x, m) {
        forall other <- s ensures TextLe(x, other) {
          if other != x { TextLeTransitive(x, m, other); }
        }
        assert Least(s, x);
      } else {
        assert Least(s, m);
      }
    }
  }

  lemma LeastIsUnique(s: set<string>, a: string, b: string)
    requires Least(s, a) && Least(s, b)
    ensures a == b
  {
    TextLeAntisymmetric(a, b);
  }

  function Min(s: set<string>): (m: string)
    requires s != {}
    ensures Least(s, m)
  {
    LeastExists(s);
    assert forall a, b :: Least(s, a) && Least(s, b) ==> a == b by {
      forall a, b | Least(s, a) && Least(s, b) { LeastIsUnique(s, a, b); }
    }
    var m :| m in s && Least(s, m);
    m
  }

  predicate StrictlySorted(r: seq<string>) {
    forall i, j :: 0 <= i < j < |r| ==> TextLe(r[i], r[j]) && r[i] != r[j]
  }

  // sorted() of a set.
  function SortedTexts(s: set<string>): (r: seq<string>)
    ensures StrictlySorted(r)
    ensures forall x :: x in r <==> x in s
  {
    if s == {} then [] else [Min(s)] + SortedTexts(s - {Min(s)})
  }

  // A strictly sorted sequence is determined by its elements.
  lemma {:induction false} StrictlySortedIsUnique(a: seq<string>, b: seq<string>)
    requires StrictlySorted(a) && StrictlySorted(b)
    requires forall x :: x in a <==> x in b
    ensures a == b
  {
    assert a != [] ==> a[0] in a;
    assert b != [] ==> b[0] in b;
    if a != [] && b != [] {
      TextLeTotal(a[0], a[0]);
      TextLeAntisymmetric(a[0], b[0]) by {
        var i :| 0 <= i < |b| && b[i] == a[0];
        var j :| 0 <= j < |a| && a[j] == b[0];
        assert TextLe(b[0], a[0]) && TextLe(a[0], b[0]);
      }
      forall x ensures x in a[1..] <==> x in b[1..] {
        assert x in a[1..] <==> x in a && x != a[0];
        assert x in b[1..] <==> x in b && x != b[0];
      }
      StrictlySortedIsUnique(a[1..], b[1..]);
      assert a == [a[0]] + a[1..] && b == [b[0]] + b[1..];
    }
  }
}
