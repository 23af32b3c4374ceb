/**
 * The PHP string primitives the plugin relies on (strpos, stripos, explode,
 * implode, trim, rtrim, ltrim, str_starts_with, str_ends_with), stated over
 * Dafny strings. Positions are 0-based like PHP's.
 */
module Strings {

  datatype Option<T> = None | Some(value: T)

  /** PHP truthiness of a string, the negation of empty(): neither "" nor "0". */
  predicate Truthy(s: string)
  {
    s != "" && s != "0"
  }

  /** `d` occurs in `s` starting at position `k`. */
  predicate OccursAt(s: string, d: string, k: int)
  {
    0 <= k && k + |d| <= |s| && s[k..k + |d|] == d
  }

  /** strpos: the position of the first occurrence of `d` in `s`, None when there is none. */
  function IndexOf(s: string, d: string): (r: Option<nat>)
    requires |d| > 0
    ensures r.Some? ==> OccursAt(s, d, r.value)
    ensures r.Some? ==> forall k :: 0 <= k < r.value ==> !OccursAt(s, d, k)
    ensures r.None? ==> forall k :: !OccursAt(s, d, k)
    decreases |s|
  {
    if |s| < |d| then None
    else if s[..|d|] == d then Some(0)
    else
      OccursShift(s, d);
      match IndexOf(s[1..], d)
      case None => None
      case Some(i) => Some(i + 1)
  }

  /** An occurrence past the first character is an occurrence in the tail. */
  lemma OccursShift(s: string, d: string)
    requires |s| > 0
    ensures forall k :: 0 < k ==> (OccursAt(s, d, k) <==> OccursAt(s[1..], d, k - 1))
  {
    forall k | 0 < k
      ensures OccursAt(s, d, k) <==> OccursAt(s[1..], d, k - 1)
    {
      if k + |d| <= |s| {
        var a, b := s[k..k + |d|], s[1..][k - 1..k - 1 + |d|];
        forall j | 0 <= j < |d| ensures a[j] == b[j] {
          assert a[j] == s[k + j] && b[j] == s[1..][k - 1 + j];
        }
        assert a == b;
      }
    }
  }

  /** str_contains */
  predicate Contains(s: string, d: string)
    requires |d| > 0
  {
    IndexOf(s, d).Some?
  }

  lemma ContainsAt(s: string, d: string, k: int)
    requires |d| > 0 && OccursAt(s, d, k)
    ensures Contains(s, d)
  {
  }

  /** ASCII lower-casing, as PHP 8's stripos applies it to both arguments. */
  function LowerChar(c: char): char
  {
    if 'A' <= c <= 'Z' then (c as int + 32) as char else c
  }

  function Lower(s: string): (r: string)
    ensures |r| == |s|
    ensures forall i :: 0 <= i < |s| ==> r[i] == LowerChar(s[i])
  {
    seq(|s|, i requires 0 <= i < |s| => LowerChar(s[i]))
  }

  /** A one-character needle is found exactly when the character occurs. */
  lemma ContainsChar(s: string, c: char)
    ensures Contains(s, [c]) <==> c in s
  {
    if Contains(s, [c]) {
      var k := IndexOf(s, [c]).value;
      assert s[k..k + 1] == [c];
      assert s[k] == c;
    }
    if c in s {
      var k :| 0 <= k < |s| && s[k] == c;
      assert s[k..k + 1] == [c];
      assert OccursAt(s, [c], k);
    }
  }

  /** stripos(...) !== false: a case-insensitive occurrence. */
  predicate ContainsCI(s: string, d: string)
    requires |d| > 0
  {
    Contains(Lower(s), Lower(d))
  }

  /** Every exact occurrence is also a case-insensitive one. */
  lemma ContainsImpliesContainsCI(s: string, d: string)
    requires |d| > 0
    ensures Contains(s, d) ==> ContainsCI(s, d)
  {
    if !Contains(s, d) { return; }
    var k := IndexOf(s, d).value;
    assert Lower(s)[k..k + |d|] == Lower(d) by {
      forall i | 0 <= i < |d|
        ensures Lower(s)[k..k + |d|][i] == Lower(d)[i]
      {
        assert s[k..k + |d|][i] == d[i];
      }
    }
    ContainsAt(Lower(s), Lower(d), k);
  }

  /** explode(d, s): the pieces of `s` between occurrences of `d`, left to right. */
  function Split(s: string, d: string): (parts: seq<string>)
    requires |d| > 0
    ensures |parts| >= 1
    decreases |s|
  {
    match IndexOf(s, d)
    case None => [s]
    case Some(i) => [s[..i]] + Split(s[i + |d|..], d)
  }

  /** implode(d, parts) */
  function Join(parts: seq<string>, d: string): string
  {
    if |parts| == 0 then ""
    else if |parts| == 1 then parts[0]
    else parts[0] + d + Join(parts[1..], d)
  }

  /** implode('', parts) */
  function Concat(parts: seq<string>): string
  {
    if |parts| == 0 then "" else parts[0] + Concat(parts[1..])
  }

  /** Gluing two lists of pieces glues their gluings. */
  lemma {:induction false} ConcatAppend(a: seq<string>, b: seq<string>)
    ensures Concat(a + b) == Concat(a) + Concat(b)
  {
    if |a| == 0 {
      assert a + b == b;
    } else {
      var ab := a + b;
      assert ab[0] == a[0] && ab[1..] == a[1..] + b;
      ConcatAppend(a[1..], b);
      assert Concat(ab) == a[0] + (Concat(a[1..]) + Concat(b));
    }
  }

  /** explode(d, s, 2) when `d` occurs: the text before and after its first occurrence. */
  function SplitOnce(s: string, d: string): (r: (string, string))
    requires |d| > 0 && Contains(s, d)
    ensures s == r.0 + d + r.1
    ensures !Contains(r.0, d)
  {
    var i := IndexOf(s, d).value;
    assert s == s[..i] + d + s[i + |d|..];
    PrefixBeforeFirst(s, d);
    (s[..i], s[i + |d|..])
  }

  /** The text before the first occurrence of `d` holds no occurrence of `d`. */
  lemma PrefixBeforeFirst(s: string, d: string)
    requires |d| > 0 && Contains(s, d)
    ensures !Contains(s[..IndexOf(s, d).value], d)
  {
    var i := IndexOf(s, d).value;
    var p := s[..i];
    if Contains(p, d) {
      var k := IndexOf(p, d).value;
      assert p[k..k + |d|] == s[k..k + |d|];
      assert OccursAt(s, d, k);
      assert false;
    }
  }

  /** A prefix of a string without `d` has no `d` either. */
  lemma PrefixKeepsAbsence(s: string, d: string, n: nat)
    requires |d| > 0 && n <= |s| && !Contains(s, d)
    ensures !Contains(s[..n], d)
  {
    if Contains(s[..n], d) {
      var k := IndexOf(s[..n], d).value;
      assert s[..n][k..k + |d|] == s[k..k + |d|];
      assert OccursAt(s, d, k);
      assert false;
    }
  }

  lemma JoinCons(a: string, ps: seq<string>, d: string)
    requires |ps| >= 1
    ensures Join([a] + ps, d) == a + d + Join(ps, d)
  {
    assert ([a] + ps)[1..] == ps;
  }

  /** Joining the pieces of explode with the same delimiter gives back the input. */
  lemma {:induction false} SplitJoin(s: string, d: string)
    requires |d| > 0
    ensures Join(Split(s, d), d) == s
    decreases |s|
  {
    match IndexOf(s, d)
    case None =>
      assert Split(s, d) == [s];
    case Some(i) =>
      var rest := s[i + |d|..];
      assert Split(s, d) == [s[..i]] + Split(rest, d);
      SplitJoin(rest, d);
      JoinCons(s[..i], Split(rest, d), d);
      OccursSplit(s, d, i);
  }

  /** An occurrence of `d` at `k` cuts `s` into the text before, `d`, and the text after. */
  lemma OccursSplit(s: string, d: string, k: int)
    requires OccursAt(s, d, k)
    ensures s == s[..k] + d + s[k + |d|..]
  {
    assert s == s[..k] + s[k..k + |d|] + s[k + |d|..];
  }

  /** No piece of explode contains the delimiter. */
  lemma {:induction false} SplitPiecesFree(s: string, d: string)
    requires |d| > 0
    ensures forall k :: 0 <= k < |Split(s, d)| ==> !Contains(Split(s, d)[k], d)
    decreases |s|
  {
    match IndexOf(s, d)
    case None =>
    case Some(i) =>
      SplitPiecesFree(s[i + |d|..], d);
      PrefixBeforeFirst(s, d);
  }

  /** Splitting a string that does not contain the delimiter gives that string alone. */
  lemma SplitAbsent(s: string, d: string)
    requires |d| > 0 && !Contains(s, d)
    ensures Split(s, d) == [s]
  {
  }

  predicate StartsWith(s: string, p: string)
  {
    |p| <= |s| && s[..|p|] == p
  }

  predicate EndsWith(s: string, p: string)
  {
    |p| <= |s| && s[|s| - |p|..] == p
  }

  /** The characters PHP's trim removes by default: space, \t, \n, \r, \0 and \x0B. */
  predicate IsTrimmed(c: char)
  {
    c == ' ' || c == '\t' || c == '\n' || c == '\r' || c == 0 as char || c == 11 as char
  }

  /** ltrim(s, chars) for a one-character set `c`: drop every leading `c`. */
  function LTrimChar(s: string, c: char): (r: string)
    ensures |r| <= |s| && r == s[|s| - |r|..]
    ensures r == "" || r[0] != c
    ensures forall i :: 0 <= i < |s| - |r| ==> s[i] == c
  {
    if |s| > 0 && s[0] == c then LTrimChar(s[1..], c) else s
  }

  /** rtrim(s, chars) for a one-character set `c`: drop every trailing `c`. */
  function RTrimChar(s: string, c: char): (r: string)
    ensures |r| <= |s| && r == s[..|r|]
    ensures r == "" || r[|r| - 1] != c
    ensures forall i :: |r| <= i < |s| ==> s[i] == c
  {
    if |s| > 0 && s[|s| - 1] == c then RTrimChar(s[..|s| - 1], c) else s
  }

  function TrimStart(s: string): (r: string)
    ensures |r| <= |s| && r == s[|s| - |r|..]
    ensures r == "" || !IsTrimmed(r[0])
    ensures forall i :: 0 <= i < |s| - |r| ==> IsTrimmed(s[i])
  {
    if |s| > 0 && IsTrimmed(s[0]) then TrimStart(s[1..]) else s
  }

  function TrimEnd(s: string): (r: string)
    ensures |r| <= |s| && r == s[..|r|]
    ensures r == "" || !IsTrimmed(r[|r| - 1])
    ensures forall i :: |r| <= i < |s| ==> IsTrimmed(s[i])
  {
    if |s| > 0 && IsTrimmed(s[|s| - 1]) then TrimEnd(s[..|s| - 1]) else s
  }

  /** trim(s) with PHP's default character set. */
  function Trim(s: string): string
  {
    TrimEnd(TrimStart(s))
  }

  /** trim gives the empty string exactly when every character is whitespace. */
  lemma TrimEmpty(s: string)
    ensures Trim(s) == "" <==> forall i :: 0 <= i < |s| ==> IsTrimmed(s[i])
  {
    var t := TrimStart(s);
    if Trim(s) == "" {
      assert t == "";
    } else {
      var r := Trim(s);
      assert r[0] == t[0] == s[|s| - |t|];
    }
  }
}
