/**
 * The handful of Python string operations the downloader relies on, over
 * `seq<char>`: `str.strip()`, `str.rstrip(c)`, `str.split(sep)`, the substring
 * test `needle in hay`, `str.endswith` and `str.lower()`.
 */
module Text {

  /** The characters Python's `str.isspace()` accepts, which `str.strip()` removes. */
  predicate IsSpace(c: char) {
    c == ' ' || ('\U{09}' <= c <= '\U{0D}') || ('\U{1C}' <= c <= '\U{1F}') ||
    c == '\U{85}' || c == '\U{A0}' || c == '\U{1680}' ||
    ('\U{2000}' <= c <= '\U{200A}') || c == '\U{2028}' || c == '\U{2029}' ||
    c == '\U{202F}' || c == '\U{205F}' || c == '\U{3000}'
  }

  /** `s.rstrip(...)`: drop characters from the end while they satisfy `drop`. */
  function DropEnd(s: string, drop: char -> bool): string {
    if s == [] || !drop(s[|s| - 1]) then s else DropEnd(s[..|s| - 1], drop)
  }

  /** `DropEnd` keeps the longest prefix after which only dropped characters follow. */
  lemma {:induction false} DropEndShape(s: string, drop: char -> bool)
    ensures DropEnd(s, drop) <= s
    ensures forall i :: |DropEnd(s, drop)| <= i < |s| ==> drop(s[i])
    ensures DropEnd(s, drop) == [] || !drop(DropEnd(s, drop)[|DropEnd(s, drop)| - 1])
  {
    if s != [] && drop(s[|s| - 1]) {
      DropEndShape(s[..|s| - 1], drop);
    }
  }

  /** `s.lstrip(...)`: drop characters from the front while they satisfy `drop`. */
  function DropStart(s: string, drop: char -> bool): string {
    if s == [] || !drop(s[0]) then s else DropStart(s[1..], drop)
  }

  /** `DropStart` keeps the longest suffix before which only dropped characters stand. */
  lemma {:induction false} DropStartShape(s: string, drop: char -> bool)
    ensures |DropStart(s, drop)| <= |s| && DropStart(s, drop) == s[|s| - |DropStart(s, drop)|..]
    ensures forall i :: 0 <= i < |s| - |DropStart(s, drop)| ==> drop(s[i])
    ensures DropStart(s, drop) == [] || !drop(DropStart(s, drop)[0])
  {
    if s != [] && drop(s[0]) {
      DropStartShape(s[1..], drop);
      forall i | 0 < i < |s| - |DropStart(s, drop)| ensures drop(s[i]) {
        assert s[i] == s[1..][i - 1];
      }
    }
  }

  /** Appending a dropped character does not change what `DropEnd` keeps. */
  lemma DropEndIgnoresDropped(s: string, c: char, drop: char -> bool)
    requires drop(c)
    ensures DropEnd(s + [c], drop) == DropEnd(s, drop)
  {
    assert (s + [c])[..|s|] == s;
  }

  /** Every character is whitespace. */
  predicate Blank(s: string) {
    forall i :: 0 <= i < |s| ==> IsSpace(s[i])
  }

  /** Python's `s.strip()`. */
  function Strip(s: string): string {
    DropStart(DropEnd(s, IsSpace), IsSpace)
  }

  /** `Strip` is empty exactly for a blank string, and otherwise has no whitespace at either end. */
  lemma StripShape(s: string)
    ensures Strip(s) == [] <==> Blank(s)
    ensures Strip(s) == [] || (!IsSpace(Strip(s)[0]) && !IsSpace(Strip(s)[|Strip(s)| - 1]))
  {
    var tail := DropEnd(s, IsSpace);
    DropEndShape(s, IsSpace);
    DropStartShape(tail, IsSpace);
    var r := Strip(s);
    if r == [] {
      assert tail == [];
    } else {
      assert r[|r| - 1] == tail[|tail| - 1];
      assert s[|tail| - 1] == tail[|tail| - 1];
    }
  }

  /** The segments of `s` between occurrences of `sep`, joined back by `sep`. */
  function Join(parts: seq<string>, sep: char): string
    requires |parts| >= 1
  {
    if |parts| == 1 then parts[0] else parts[0] + [sep] + Join(parts[1..], sep)
  }

  /**
   * Python's `s.split(sep)` for a one-character separator: never empty, no
   * segment holds the separator, and joining the segments gives back `s`.
   */
  function Split(s: string, sep: char): (parts: seq<string>)
    ensures |parts| >= 1
    ensures forall i :: 0 <= i < |parts| ==> sep !in parts[i]
    ensures Join(parts, sep) == s
  {
    if s == [] then [[]]
    else
      var rest := Split(s[1..], sep);
      if s[0] == sep then
        assert ([[]] + rest)[1..] == rest;
        assert [sep] + s[1..] == s;
        [[]] + rest
      else
        var parts := [[s[0]] + rest[0]] + rest[1..];
        assert parts[1..] == rest[1..];
        assert sep !in [s[0]] + rest[0];
        assert Join(parts, sep) == s by {
          if |rest| == 1 {
            assert Join(parts, sep) == [s[0]] + rest[0];
          } else {
            calc {
              Join(parts, sep);
              [s[0]] + rest[0] + [sep] + Join(rest[1..], sep);
              [s[0]] + (rest[0] + [sep] + Join(rest[1..], sep));
              [s[0]] + Join(rest, sep);
              [s[0]] + s[1..];
            }
          }
        }
        parts
  }

  /** A string without the separator splits into itself alone. */
  lemma {:induction false} SplitWithoutSep(p: string, sep: char)
    requires sep !in p
    ensures Split(p, sep) == [p]
  {
    if p != [] {
      SplitWithoutSep(p[1..], sep);
      assert [p[0]] + p[1..] == p;
    }
  }

  /** A separator-free head followed by the separator becomes the first segment. */
  lemma {:induction false} SplitAfterSegment(p: string, sep: char, t: string)
    requires sep !in p
    ensures Split(p + [sep] + t, sep) == [p] + Split(t, sep)
  {
    if p == [] {
      assert p + [sep] + t == [sep] + t;
      assert ([sep] + t)[1..] == t;
    } else {
      var s := p + [sep] + t;
      assert s[0] == p[0] && s[1..] == p[1..] + [sep] + t;
      SplitAfterSegment(p[1..], sep, t);
      assert [p[0]] + p[1..] == p;
    }
  }

  /**
   * `Split` is the only way to cut `s` into separator-free pieces that join
   * back to `s`, so it agrees with Python's `str.split`.
   */
  lemma {:induction false} SplitUnique(parts: seq<string>, sep: char)
    requires |parts| >= 1
    requires forall i :: 0 <= i < |parts| ==> sep !in parts[i]
    ensures Split(Join(parts, sep), sep) == parts
  {
    if |parts| == 1 {
      SplitWithoutSep(parts[0], sep);
    } else {
      SplitUnique(parts[1..], sep);
      SplitAfterSegment(parts[0], sep, Join(parts[1..], sep));
      assert [parts[0]] + parts[1..] == parts;
    }
  }

  /** `needle` occurs in `hay` starting at index `i`. */
  predicate OccursAt(hay: string, needle: string, i: int) {
    0 <= i && i + |needle| <= |hay| && hay[i..i + |needle|] == needle
  }

  /** Python's `needle in hay` for strings. */
  function Contains(hay: string, needle: string): (r: bool)
    ensures r <==> exists i :: OccursAt(hay, needle, i)
    decreases |hay|
  {
    if needle <= hay then
      assert OccursAt(hay, needle, 0);
      true
    else if hay == [] then
      false
    else
      var r := Contains(hay[1..], needle);
      assert r ==> exists i :: OccursAt(hay, needle, i) by {
        if r {
          var j :| OccursAt(hay[1..], needle, j);
          assert hay[j + 1..j + 1 + |needle|] == hay[1..][j..j + |needle|];
          assert OccursAt(hay, needle, j + 1);
        }
      }
      assert (exists i :: OccursAt(hay, needle, i)) ==> r by {
        if exists i :: OccursAt(hay, needle, i) {
          var i :| OccursAt(hay, needle, i);
          assert i != 0;
          assert hay[1..][i - 1..i - 1 + |needle|] == hay[i..i + |needle|];
          assert OccursAt(hay[1..], needle, i - 1);
        }
      }
      r
  }

  /** Appending a character that the needle does not end with adds no occurrence. */
  lemma ContainsIgnoresAppended(hay: string, c: char, needle: string)
    requires needle != [] && needle[|needle| - 1] != c
    ensures Contains(hay + [c], needle) == Contains(hay, needle)
  {
    if Contains(hay + [c], needle) {
      var i :| OccursAt(hay + [c], needle, i);
      assert hay[i..i + |needle|] == (hay + [c])[i..i + |needle|];
      assert OccursAt(hay, needle, i);
    }
    if Contains(hay, needle) {
      var i :| OccursAt(hay, needle, i);
      assert (hay + [c])[i..i + |needle|] == hay[i..i + |needle|];
      assert OccursAt(hay + [c], needle, i);
    }
  }

  /** The suffix test that a glob with one leading `*`, such as `*{id}.pdf`, reduces to. */
  predicate EndsWith(s: string, suffix: string) {
    |suffix| <= |s| && s[|s| - |suffix|..] == suffix
  }

  /** `str.lower()` on one character; only the ASCII letters are mapped. */
  function LowerChar(c: char): char {
    if 'A' <= c <= 'Z' then (c as int + 32) as char else c
  }

  /** `str.lower()`: the same length, every character lowered. */
  function Lower(s: string): (r: string)
    ensures |r| == |s|
    ensures forall i :: 0 <= i < |s| ==> r[i] == LowerChar(s[i])
  {
    seq(|s|, i requires 0 <= i < |s| => LowerChar(s[i]))
  }

  /** Lowering twice is lowering once. */
  lemma LowerIdempotent(s: string)
    ensures Lower(Lower(s)) == Lower(s)
  {
  }

  /** Python's `s[:n]`. */
  function Head(s: string, n: nat): (r: string)
    ensures r <= s
    ensures |r| == if |s| <= n then |s| else n
  {
    if |s| <= n then s else s[..n]
  }
}
