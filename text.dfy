/**
 * String helpers the placement engine relies on: ASCII case folding
 * (`str.lower`), splitting a relative path on '/', dropping empty and "."
 * segments the way `os.path.normpath` followed by the component filter does,
 * substring search (`in` on strings) and whitespace trimming (`str.strip`).
 */
module Text {

  /** Lower-case one character; only the ASCII letters are folded. */
  function LowerChar(c: char): char {
    if 'A' <= c <= 'Z' then (c as int + 32) as char else c
  }

  function Lower(s: string): (r: string)
    ensures |r| == |s|
    ensures forall i :: 0 <= i < |s| ==> r[i] == LowerChar(s[i])
  {
    seq(|s|, i requires 0 <= i < |s| => LowerChar(s[i]))
  }

  /** Case-insensitive equality as the source writes it: `a.lower() == b.lower()`. */
  predicate EqualsIgnoreCase(a: string, b: string) {
    Lower(a) == Lower(b)
  }

  lemma LowerIdempotent(s: string)
    ensures Lower(Lower(s)) == Lower(s)
  {
  }

  /** Folding case does not touch the separator, so it commutes with splitting. */
  lemma LowerKeepsSeparator(s: string)
    ensures forall i :: 0 <= i < |s| ==> (Lower(s)[i] == '/' <==> s[i] == '/')
  {
  }

  // ---------------------------------------------------------------------------
  // Splitting and joining on a separator

  /** `s.split(sep)`: the maximal separator-free pieces of `s`, in order. */
  function Split(s: string, sep: char): (parts: seq<string>)
    ensures |parts| >= 1
    decreases |s|
  {
    if s == [] then [""]
    else if s[0] == sep then [""] + Split(s[1..], sep)
    else
      var rest := Split(s[1..], sep);
      [[s[0]] + rest[0]] + rest[1..]
  }

  /** `sep.join(parts)`. */
  function Join(parts: seq<string>, sep: char): string
    decreases |parts|
  {
    if parts == [] then ""
    else if |parts| == 1 then parts[0]
    else parts[0] + [sep] + Join(parts[1..], sep)
  }

  predicate FreeOf(s: string, sep: char) {
    forall i :: 0 <= i < |s| ==> s[i] != sep
  }

  /** No piece of a split contains the separator. */
  lemma {:induction false} SplitPiecesFreeOfSeparator(s: string, sep: char)
    ensures forall k :: 0 <= k < |Split(s, sep)| ==> FreeOf(Split(s, sep)[k], sep)
    decreases |s|
  {
    if s != [] {
      SplitPiecesFreeOfSeparator(s[1..], sep);
      var rest := Split(s[1..], sep);
      if s[0] != sep {
        assert FreeOf(rest[0], sep);
        var head := [s[0]] + rest[0];
        assert forall i :: 0 <= i < |head| ==> head[i] != sep by {
          forall i | 0 <= i < |head| ensures head[i] != sep {
            if i > 0 { assert head[i] == rest[0][i - 1]; }
          }
        }
      }
    }
  }

  /** Joining the pieces of a split gives the original string back. */
  lemma {:induction false} JoinSplit(s: string, sep: char)
    ensures Join(Split(s, sep), sep) == s
    decreases |s|
  {
    if s != [] {
      JoinSplit(s[1..], sep);
      var rest := Split(s[1..], sep);
      assert s == [s[0]] + s[1..];
      if s[0] == sep {
        assert Split(s, sep) == [""] + rest;
        JoinCons("", rest, sep);
      } else {
        JoinExtendsHead(s[0], rest, sep);
      }
    }
  }

  lemma JoinCons(head: string, rest: seq<string>, sep: char)
    requires |rest| >= 1
    ensures Join([head] + rest, sep) == head + [sep] + Join(rest, sep)
  {
    assert ([head] + rest)[1..] == rest;
  }

  /** Putting a character in front of the first piece puts it in front of the join. */
  lemma JoinExtendsHead(c: char, rest: seq<string>, sep: char)
    requires |rest| >= 1
    ensures Join([[c] + rest[0]] + rest[1..], sep) == [c] + Join(rest, sep)
  {
    var parts := [[c] + rest[0]] + rest[1..];
    if |rest| > 1 {
      assert parts[1..] == rest[1..];
      assert Join(parts, sep) == [c] + rest[0] + [sep] + Join(rest[1..], sep);
    }
  }

  /** Splitting a separator-free string gives it back as the single piece. */
  lemma {:induction false} SplitFree(p: string, sep: char)
    requires FreeOf(p, sep)
    ensures Split(p, sep) == [p]
    decreases |p|
  {
    if p != [] {
      SplitFree(p[1..], sep);
      assert [p[0]] + p[1..] == p;
    }
  }

  /** Splitting `p + sep + q` for a separator-free `p` splits off `p` first. */
  lemma {:induction false} SplitCons(p: string, q: string, sep: char)
    requires FreeOf(p, sep)
    ensures Split(p + [sep] + q, sep) == [p] + Split(q, sep)
    decreases |p|
  {
    if p == [] {
      assert p + [sep] + q == [sep] + q;
      assert ([sep] + q)[1..] == q;
    } else {
      var s := p + [sep] + q;
      assert s[0] == p[0];
      assert s[1..] == p[1..] + [sep] + q;
      SplitCons(p[1..], q, sep);
      assert [p[0]] + p[1..] == p;
    }
  }

  /** Splitting the join of separator-free pieces gives the pieces back. */
  lemma {:induction false} SplitJoin(parts: seq<string>, sep: char)
    requires |parts| >= 1
    requires forall k :: 0 <= k < |parts| ==> FreeOf(parts[k], sep)
    ensures Split(Join(parts, sep), sep) == parts
    decreases |parts|
  {
    if |parts| == 1 {
      SplitFree(parts[0], sep);
    } else {
      SplitJoin(parts[1..], sep);
      SplitCons(parts[0], Join(parts[1..], sep), sep);
      assert [parts[0]] + parts[1..] == parts;
    }
  }

  // ---------------------------------------------------------------------------
  // Path components

  /** A segment that survives the filter `comp and comp != '.'`. */
  predicate IsSegment(c: string) {
    c != "" && c != "."
  }

  /** The list comprehension `[comp for comp in parts if comp and comp != '.']`. */
  function KeepSegments(parts: seq<string>): (r: seq<string>)
    ensures |r| <= |parts|
    ensures forall k :: 0 <= k < |r| ==> IsSegment(r[k])
    ensures forall c :: c in r ==> c in parts
    ensures forall c :: c in parts && IsSegment(c) ==> c in r
    decreases |parts|
  {
    if parts == [] then []
    else if IsSegment(parts[0]) then [parts[0]] + KeepSegments(parts[1..])
    else KeepSegments(parts[1..])
  }

  lemma {:induction false} KeepSegmentsOfSegments(parts: seq<string>)
    requires forall k :: 0 <= k < |parts| ==> IsSegment(parts[k])
    ensures KeepSegments(parts) == parts
    decreases |parts|
  {
    if parts != [] {
      KeepSegmentsOfSegments(parts[1..]);
    }
  }

  /**
   * The components of a relative path string: split on '/', then drop empty
   * and "." segments. This is what the source's `os.path.normpath` plus the
   * `os.path.split` loop plus the filter produce for paths without "..".
   */
  function Components(rel: string): (r: seq<string>)
  {
    KeepSegments(Split(rel, '/'))
  }

  /** Every component is a real segment without a separator in it. */
  lemma ComponentsAreSegments(rel: string)
    ensures forall k :: 0 <= k < |Components(rel)| ==> IsSegment(Components(rel)[k]) && FreeOf(Components(rel)[k], '/')
  {
    SplitPiecesFreeOfSeparator(rel, '/');
    var parts := Split(rel, '/');
    forall k | 0 <= k < |Components(rel)|
      ensures FreeOf(Components(rel)[k], '/')
    {
      var c := Components(rel)[k];
      assert c in parts;
      var j :| 0 <= j < |parts| && parts[j] == c;
    }
  }

  /** Components round-trip: a path built by joining clean segments splits back into them. */
  lemma ComponentsOfJoin(comps: seq<string>)
    requires |comps| >= 1
    requires forall k :: 0 <= k < |comps| ==> IsSegment(comps[k]) && FreeOf(comps[k], '/')
    ensures Components(Join(comps, '/')) == comps
  {
    SplitJoin(comps, '/');
    KeepSegmentsOfSegments(comps);
  }

  // ---------------------------------------------------------------------------
  // Substring search and trimming

  predicate IsPrefix(t: string, s: string) {
    |t| <= |s| && s[..|t|] == t
  }

  /** `t in s` for strings: `t` occurs somewhere in `s`. */
  predicate Contains(s: string, t: string)
    decreases |s|
  {
    IsPrefix(t, s) || (s != [] && Contains(s[1..], t))
  }

  /** `t` occurs in `s` starting at index `i`. */
  predicate OccursAt(s: string, t: string, i: int) {
    0 <= i && i + |t| <= |s| && s[i..i + |t|] == t
  }

  /** The recursive search agrees with the positional reading of `t in s`. */
  lemma {:induction false} ContainsAt(s: string, t: string)
    ensures Contains(s, t) <==> exists i :: OccursAt(s, t, i)
    decreases |s|
  {
    if s == [] {
      if IsPrefix(t, s) {
        assert OccursAt(s, t, 0);
      }
      if exists i :: OccursAt(s, t, i) {
        var i :| OccursAt(s, t, i);
        assert IsPrefix(t, s);
      }
    } else {
      ContainsAt(s[1..], t);
      if IsPrefix(t, s) {
        assert OccursAt(s, t, 0);
      } else if Contains(s[1..], t) {
        var i :| OccursAt(s[1..], t, i);
        assert s[i + 1..i + 1 + |t|] == s[1..][i..i + |t|];
        assert OccursAt(s, t, i + 1);
      }
      if exists i :: OccursAt(s, t, i) {
        var i :| OccursAt(s, t, i);
        if i > 0 {
          assert s[1..][i - 1..i - 1 + |t|] == s[i..i + |t|];
          assert OccursAt(s[1..], t, i - 1);
        } else {
          assert IsPrefix(t, s);
        }
      }
    }
  }

  /** The empty search term occurs in every string. */
  lemma EmptyOccursEverywhere(s: string)
    ensures Contains(s, "")
  {
  }

  /** The characters `str.strip()` removes, restricted to ASCII. */
  predicate IsSpace(c: char) {
    c == ' ' || c == '\t' || c == '\n' || c == '\r' || c as int == 11 || c as int == 12
  }

  function TrimLeft(s: string): (r: string)
    ensures |r| <= |s| && r == s[|s| - |r|..]
    ensures r != [] ==> !IsSpace(r[0])
    ensures forall i :: 0 <= i < |s| - |r| ==> IsSpace(s[i])
    decreases |s|
  {
    if s != [] && IsSpace(s[0]) then TrimLeft(s[1..]) else s
  }

  function TrimRight(s: string): (r: string)
    ensures |r| <= |s| && r == s[..|r|]
    ensures r != [] ==> !IsSpace(r[|r| - 1])
    ensures forall i :: |r| <= i < |s| ==> IsSpace(s[i])
    decreases |s|
  {
    if s != [] && IsSpace(s[|s| - 1]) then TrimRight(s[..|s| - 1]) else s
  }

  /** `str.strip()`: drop leading and trailing whitespace. */
  function Strip(s: string): (r: string)
    ensures r != [] ==> !IsSpace(r[0]) && !IsSpace(r[|r| - 1])
  {
    TrimRight(TrimLeft(s))
  }

  // ---------------------------------------------------------------------------
  // Decimal rendering for status messages

  function DigitChar(d: nat): char
    requires d < 10
  {
    "0123456789"[d]
  }

  function NatToString(n: nat): (r: string)
    ensures |r| >= 1
    decreases n
  {
    if n < 10 then [DigitChar(n)] else NatToString(n / 10) + [DigitChar(n % 10)]
  }
}
