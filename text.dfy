/**
 * The string operations the two core classes rely on: English-locale lower-casing
 * (String.toLowerCase), splitting on a separator character, and trimming whitespace
 * (the Splitter of the tags column).
 */
module Text {

  // ---------------------------------------------------------------------------
  // Lower-casing

  predicate IsUpper(c: char) {
    'A' <= c <= 'Z'
  }

  function ToLowerChar(c: char): (r: char)
    ensures !IsUpper(r)
    ensures !IsUpper(c) ==> r == c
  {
    if IsUpper(c) then (c as int + 32) as char else c
  }

  /** Lower-cases the ASCII letters of s and keeps every other character. */
  function ToLower(s: string): (r: string)
    ensures |r| == |s|
    ensures forall i :: 0 <= i < |s| ==> r[i] == ToLowerChar(s[i])
  {
    seq(|s|, i requires 0 <= i < |s| => ToLowerChar(s[i]))
  }

  predicate IsLowerCase(s: string) {
    forall i :: 0 <= i < |s| ==> !IsUpper(s[i])
  }

  lemma ToLowerOfLowerCase(s: string)
    requires IsLowerCase(s)
    ensures ToLower(s) == s
  {
  }

  lemma ToLowerIsLowerCase(s: string)
    ensures IsLowerCase(ToLower(s))
    ensures ToLower(ToLower(s)) == ToLower(s)
  {
  }

  // ---------------------------------------------------------------------------
  // Splitting and joining on a separator

  /** The pieces of s between occurrences of sep; "" splits into [""], as Guava's Splitter does. */
  function Split(s: string, sep: char): (r: seq<string>)
    ensures |r| >= 1
    decreases |s|
  {
    if s == [] then [""]
    else if s[0] == sep then [""] + Split(s[1..], sep)
    else
      var rest := Split(s[1..], sep);
      [[s[0]] + rest[0]] + rest[1..]
  }

  /** No piece holds the separator, and joining the pieces with it gives s back. */
  lemma {:induction false} SplitPieces(s: string, sep: char)
    ensures forall p <- Split(s, sep) :: sep !in p
    ensures Join(Split(s, sep), sep) == s
    decreases |s|
  {
    if s != [] {
      var rest := Split(s[1..], sep);
      SplitPieces(s[1..], sep);
      if s[0] == sep {
        assert ([""] + rest)[1..] == rest;
      } else {
        JoinCons(s[0], rest, sep);
        assert rest[0] in rest;
        assert forall p <- Split(s, sep) :: p == [s[0]] + rest[0] || p in rest[1..];
      }
      assert s == [s[0]] + s[1..];
    }
  }

  /** The pieces of ps with sep between consecutive ones. */
  function Join(ps: seq<string>, sep: char): string
    requires |ps| >= 1
    decreases |ps|
  {
    if |ps| == 1 then ps[0] else ps[0] + [sep] + Join(ps[1..], sep)
  }

  /** Prepending a character to the first piece prepends it to the joined text. */
  lemma JoinCons(c: char, ps: seq<string>, sep: char)
    requires |ps| >= 1
    ensures Join([[c] + ps[0]] + ps[1..], sep) == [c] + Join(ps, sep)
  {
    var qs := [[c] + ps[0]] + ps[1..];
    assert qs[1..] == ps[1..];
  }

  /** Splitting is the inverse of joining pieces that do not contain the separator. */
  lemma {:induction false} SplitJoin(ps: seq<string>, sep: char)
    requires |ps| >= 1
    requires forall p <- ps :: sep !in p
    ensures Split(Join(ps, sep), sep) == ps
    decreases |ps|, |ps[0]|
  {
    if |ps[0]| == 0 {
      if |ps| == 1 {
        assert Join(ps, sep) == "";
      } else {
        var rest := ps[1..];
        SplitJoin(rest, sep);
        assert Join(ps, sep) == [sep] + Join(rest, sep);
        assert ps == [""] + rest;
      }
    } else {
      var c := ps[0][0];
      assert ps[0] in ps;
      assert ps[0] == [c] + ps[0][1..];
      var qs := [ps[0][1..]] + ps[1..];
      assert qs[1..] == ps[1..];
      forall p <- qs ensures sep !in p {
        if p != qs[0] {
          assert p in ps[1..];
        }
      }
      SplitJoin(qs, sep);
      JoinCons(c, qs, sep);
      assert [[c] + qs[0]] + qs[1..] == ps;
      assert Join(ps, sep) == [c] + Join(qs, sep);
      assert Join(ps, sep)[1..] == Join(qs, sep);
    }
  }

  /** A character that is neither a separator nor in any piece is not in the joined text. */
  lemma {:induction false} NotInJoin(ps: seq<string>, sep: char, c: char)
    requires |ps| >= 1
    requires c != sep
    requires forall p <- ps :: c !in p
    ensures c !in Join(ps, sep)
    decreases |ps|
  {
    if |ps| > 1 {
      NotInJoin(ps[1..], sep, c);
    }
  }

  // ---------------------------------------------------------------------------
  // Trimming

  /** The characters Guava's CharMatcher.whitespace() matches. */
  predicate IsWhitespace(c: char) {
    || c in {'\t', '\n', '\U{B}', '\U{C}', '\r', ' ', '\U{85}', '\U{A0}', '\U{1680}'}
    || ('\U{2000}' <= c <= '\U{200A}')
    || c in {'\U{2028}', '\U{2029}', '\U{202F}', '\U{205F}', '\U{3000}'}
  }

  /** s without its leading whitespace: a suffix of s. */
  function TrimStart(s: string): (r: string)
    ensures |r| <= |s|
    decreases |s|
  {
    if s != [] && IsWhitespace(s[0]) then TrimStart(s[1..]) else s
  }

  /** TrimStart keeps a suffix of s and drops only whitespace, exactly up to the first other character. */
  lemma {:induction false} TrimStartDrops(s: string)
    ensures TrimStart(s) == s[|s| - |TrimStart(s)|..]
    ensures TrimStart(s) == [] || !IsWhitespace(TrimStart(s)[0])
    ensures forall k :: 0 <= k < |s| - |TrimStart(s)| ==> IsWhitespace(s[k])
    decreases |s|
  {
    if s != [] && IsWhitespace(s[0]) {
      TrimStartDrops(s[1..]);
      forall k | 1 <= k < |s| - |TrimStart(s)| ensures IsWhitespace(s[k]) {
        assert s[k] == s[1..][k - 1];
      }
    }
  }

  /** s without its trailing whitespace: a prefix of s. */
  function TrimEnd(s: string): (r: string)
    ensures |r| <= |s|
    decreases |s|
  {
    if s != [] && IsWhitespace(s[|s| - 1]) then TrimEnd(s[..|s| - 1]) else s
  }

  /** TrimEnd keeps a prefix of s and drops only whitespace, exactly back to the last other character. */
  lemma {:induction false} TrimEndDrops(s: string)
    ensures TrimEnd(s) == s[..|TrimEnd(s)|]
    ensures TrimEnd(s) == [] || !IsWhitespace(TrimEnd(s)[|TrimEnd(s)| - 1])
    ensures forall k :: |TrimEnd(s)| <= k < |s| ==> IsWhitespace(s[k])
    decreases |s|
  {
    if s != [] && IsWhitespace(s[|s| - 1]) {
      TrimEndDrops(s[..|s| - 1]);
      forall k | |TrimEnd(s)| <= k < |s| - 1 ensures IsWhitespace(s[k]) {
        assert s[k] == s[..|s| - 1][k];
      }
    }
  }

  /** s without leading and trailing whitespace. */
  function Trim(s: string): string {
    TrimEnd(TrimStart(s))
  }

  /** Trim takes a contiguous slice of s, drops only whitespace, and leaves none at either end. */
  lemma TrimSlice(s: string) returns (i: nat, j: nat)
    ensures i <= j <= |s| && Trim(s) == s[i..j]
    ensures forall k :: 0 <= k < i ==> IsWhitespace(s[k])
    ensures forall k :: j <= k < |s| ==> IsWhitespace(s[k])
    ensures i < j ==> !IsWhitespace(s[i]) && !IsWhitespace(s[j - 1])
  {
    var t := TrimStart(s);
    var u := TrimEnd(t);
    TrimStartDrops(s);
    TrimEndDrops(t);
    i := |s| - |t|;
    j := i + |u|;
    assert t == s[i..];
    assert u == t[..|u|];
    assert u == s[i..j];
    forall k | j <= k < |s| ensures IsWhitespace(s[k]) {
      assert s[k] == t[k - i];
    }
    if i < j {
      assert s[i] == t[0] == u[0];
      assert s[j - 1] == u[|u| - 1];
    }
  }

  /** Trimming a trimmed string changes nothing. */
  lemma TrimIdempotent(s: string)
    ensures Trim(Trim(s)) == Trim(s)
  {
    var i, j := TrimSlice(s);
    var t := Trim(s);
    if t != [] {
      assert t[0] == s[i] && t[|t| - 1] == s[j - 1];
    }
    assert TrimStart(t) == t;
    assert TrimEnd(t) == t;
  }

  /** Trimming never introduces a character. */
  lemma TrimWithin(s: string, c: char)
    requires c !in s
    ensures c !in Trim(s)
  {
    var i, j := TrimSlice(s);
    assert forall k :: i <= k < j ==> s[i..j][k - i] == s[k];
  }

  /** Trim(s) is empty exactly when s is all whitespace. */
  lemma TrimEmpty(s: string)
    ensures Trim(s) == [] <==> forall k :: 0 <= k < |s| ==> IsWhitespace(s[k])
  {
    var i, j := TrimSlice(s);
    if Trim(s) != [] {
      assert !IsWhitespace(s[i]);
    }
  }
}
