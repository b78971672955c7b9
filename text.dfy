/** The JavaScript string operations the pipeline relies on, as functions on
    `seq<char>`: lower-casing, substring search, the base name of a path,
    whitespace trimming, splitting on a separator and the UTF-16 length. */
module Text {

  // ---------------------------------------------------------------- case

  /** `toLowerCase` on one character, for the ASCII letters only. */
  function LowerChar(c: char): char
  {
    if 'A' <= c <= 'Z' then (c as int - 'A' as int + 'a' as int) as char else c
  }

  function Lower(s: string): (r: string)
    ensures |r| == |s|
  {
    if s == [] then [] else [LowerChar(s[0])] + Lower(s[1..])
  }

  /** Lower-casing is idempotent and works character by character; it
      leaves `^` alone, so a token that starts with `^` still does once
      lower-cased. */
  lemma {:induction false} LowerFacts(s: string)
    ensures Lower(Lower(s)) == Lower(s)
    ensures forall i :: 0 <= i < |s| ==> Lower(s)[i] == LowerChar(s[i])
    ensures |s| > 0 && s[0] == '^' ==> Lower(s) == ['^'] + Lower(s[1..])
  {
    if s != [] {
      LowerFacts(s[1..]);
      assert Lower(Lower(s)) == [LowerChar(LowerChar(s[0]))] + Lower(Lower(s[1..]));
    }
  }

  // ---------------------------------------------------------------- search

  /** `String.prototype.includes`: `needle` is a prefix of `hay` or of one
      of its suffixes. */
  predicate Contains(hay: string, needle: string)
  {
    needle <= hay || (hay != [] && Contains(hay[1..], needle))
  }

  /** `needle` occurs in `hay` starting at offset `i`. */
  predicate OccursAt(hay: string, needle: string, i: int)
  {
    0 <= i && i + |needle| <= |hay| && hay[i..i + |needle|] == needle
  }

  /** `Contains` means an occurrence at some offset. */
  lemma {:induction false} ContainsIff(hay: string, needle: string)
    ensures Contains(hay, needle) <==> exists i :: 0 <= i <= |hay| && OccursAt(hay, needle, i)
  {
    if hay != [] {
      ContainsIff(hay[1..], needle);
      if exists i :: 0 <= i <= |hay[1..]| && OccursAt(hay[1..], needle, i) {
        var i :| 0 <= i <= |hay[1..]| && OccursAt(hay[1..], needle, i);
        assert hay[1..][i..i + |needle|] == hay[i + 1..i + 1 + |needle|];
        assert OccursAt(hay, needle, i + 1);
      }
      if exists i :: 0 <= i <= |hay| && OccursAt(hay, needle, i) {
        var i :| 0 <= i <= |hay| && OccursAt(hay, needle, i);
        if i > 0 {
          assert hay[1..][i - 1..i - 1 + |needle|] == hay[i..i + |needle|];
          assert OccursAt(hay[1..], needle, i - 1);
        } else {
          assert needle <= hay;
        }
      }
      if needle <= hay {
        assert OccursAt(hay, needle, 0);
      }
    } else {
      if needle <= hay {
        assert OccursAt(hay, needle, 0);
      }
    }
  }

  /** Whatever contains `[c] + x` contains `x`. */
  lemma {:induction false} ContainsTail(hay: string, c: char, x: string)
    requires Contains(hay, [c] + x)
    ensures Contains(hay, x)
  {
    if [c] + x <= hay {
      assert x <= hay[1..];
    } else {
      ContainsTail(hay[1..], c, x);
    }
  }

  // ---------------------------------------------------------------- paths

  /** `path.basename` for `/`-separated paths: what follows the last `/`. */
  function Basename(p: string): string
  {
    if p == [] || p[|p| - 1] == '/' then [] else Basename(p[..|p| - 1]) + [p[|p| - 1]]
  }

  /** The base name is the longest suffix of the path that holds no `/`. */
  lemma {:induction false} BasenameIsLastSegment(p: string)
    ensures '/' !in Basename(p)
    ensures |Basename(p)| <= |p| && Basename(p) == p[|p| - |Basename(p)|..]
    ensures |Basename(p)| < |p| ==> p[|p| - |Basename(p)| - 1] == '/'
  {
    if p != [] && p[|p| - 1] != '/' {
      var front := p[..|p| - 1];
      BasenameIsLastSegment(front);
      var rest := Basename(front);
      var n := |p| - 1 - |rest|;
      assert Basename(p) == rest + [p[|p| - 1]];
      assert rest == front[n..];
      assert front[n..] == p[n..|p| - 1];
      assert p[n..] == p[n..|p| - 1] + [p[|p| - 1]];
      if n > 0 {
        assert front[n - 1] == p[n - 1];
      }
    }
  }

  // ---------------------------------------------------------------- lengths

  /** `String.prototype.length`: the number of UTF-16 code units, where a
      character outside the Basic Multilingual Plane takes two. */
  function JsLength(s: string): nat
  {
    if s == [] then 0 else JsLength(s[..|s| - 1]) + (if s[|s| - 1] as int < 0x1_0000 then 1 else 2)
  }

  // ---------------------------------------------------------------- trim

  /** The characters `String.prototype.trim` removes: ECMAScript WhiteSpace
      and LineTerminator. */
  predicate IsSpace(c: char)
  {
    var n := c as int;
    n == 0x09 || n == 0x0A || n == 0x0B || n == 0x0C || n == 0x0D || n == 0x20 ||
    n == 0xA0 || n == 0x1680 || (0x2000 <= n <= 0x200A) || n == 0x2028 || n == 0x2029 ||
    n == 0x202F || n == 0x205F || n == 0x3000 || n == 0xFEFF
  }

  /** Drops the leading white space: the result is the suffix of `s` that
      starts at its first non-space character. */
  function TrimStart(s: string): (r: string)
    ensures |r| <= |s| && r == s[|s| - |r|..]
    ensures forall i :: 0 <= i < |s| - |r| ==> IsSpace(s[i])
    ensures r != [] ==> !IsSpace(r[0])
  {
    if s != [] && IsSpace(s[0]) then TrimStart(s[1..]) else s
  }

  /** Drops the trailing white space: the result is the prefix of `s` that
      ends at its last non-space character. */
  function TrimEnd(s: string): (r: string)
    ensures |r| <= |s| && r == s[..|r|]
    ensures forall i :: |r| <= i < |s| ==> IsSpace(s[i])
    ensures r != [] ==> !IsSpace(r[|r| - 1])
  {
    if s != [] && IsSpace(s[|s| - 1]) then TrimEnd(s[..|s| - 1]) else s
  }

  /** `String.prototype.trim`. */
  function Trim(s: string): string
  {
    TrimEnd(TrimStart(s))
  }

  /** A string whose last character and some character `k` are not white
      space loses, when trimmed, only a run of white space before `k`. */
  lemma TrimBefore(s: string, k: nat)
    requires k < |s| && !IsSpace(s[k]) && !IsSpace(s[|s| - 1])
    ensures |s| - |Trim(s)| <= k && Trim(s) == s[|s| - |Trim(s)|..]
    ensures forall i :: 0 <= i < |s| - |Trim(s)| ==> IsSpace(s[i])
    ensures !IsSpace(Trim(s)[0])
  {
    var head := TrimStart(s);
    assert head != [] && head[|head| - 1] == s[|s| - 1];
    assert TrimEnd(head) == head;
  }

  /** A text between double quotes. */
  function Quoted(body: string): string
  {
    "\"" + body + "\""
  }

  /** A name, a space and a quoted text: the cue line before trimming. */
  function CueLine(prefix: string, body: string): string
  {
    prefix + " " + Quoted(body)
  }

  /** Trimming a cue line keeps the quoted text whole at its end. */
  lemma TrimQuotedKeepsBody(prefix: string, body: string)
    ensures var t := Trim(CueLine(prefix, body));
      |t| >= |Quoted(body)| && t[|t| - |Quoted(body)|..] == Quoted(body)
  {
    var s := CueLine(prefix, body);
    var open := |prefix| + 1;
    assert s[open..] == Quoted(body);
    TrimQuotedCut(s, open);
  }

  /** ... and changes nothing when `prefix` starts with a non-space ... */
  lemma TrimQuotedPlain(prefix: string, body: string)
    requires prefix != [] && !IsSpace(prefix[0])
    ensures Trim(CueLine(prefix, body)) == CueLine(prefix, body)
  {
    var s := CueLine(prefix, body);
    assert s[0] == prefix[0];
    TrimUnchanged(s);
  }

  /** ... and leaves only the quoted text when `prefix` is all white space. */
  lemma TrimQuotedBlank(prefix: string, body: string)
    requires forall i :: 0 <= i < |prefix| ==> IsSpace(prefix[i])
    ensures Trim(CueLine(prefix, body)) == Quoted(body)
  {
    var s := CueLine(prefix, body);
    var open := |prefix| + 1;
    assert s[open..] == Quoted(body);
    forall i | 0 <= i < open
      ensures IsSpace(s[i])
    {
      if i < |prefix| {
        assert s[i] == prefix[i];
      }
    }
    TrimSpaceRun(s, open);
  }

  /** Trimming cuts only white space before a non-space `s[k]`, when the
      last character is not white space either. */
  lemma TrimQuotedCut(s: string, k: nat)
    requires k < |s| && !IsSpace(s[k]) && !IsSpace(s[|s| - 1])
    ensures |Trim(s)| >= |s| - k && Trim(s)[|Trim(s)| - (|s| - k)..] == s[k..]
  {
    TrimBefore(s, k);
    var m := |s| - |Trim(s)|;
    assert Trim(s)[|Trim(s)| - (|s| - k)..] == s[m..][k - m..];
  }

  /** Nothing to trim at either end. */
  lemma TrimUnchanged(s: string)
    requires s != [] && !IsSpace(s[0]) && !IsSpace(s[|s| - 1])
    ensures Trim(s) == s
  {
    TrimBefore(s, 0);
  }

  /** A run of white space before a non-space `s[k]` is cut exactly. */
  lemma TrimSpaceRun(s: string, k: nat)
    requires k < |s| && !IsSpace(s[k]) && !IsSpace(s[|s| - 1])
    requires forall i :: 0 <= i < k ==> IsSpace(s[i])
    ensures Trim(s) == s[k..]
  {
    TrimBefore(s, k);
    var m := |s| - |Trim(s)|;
    assert Trim(s)[0] == s[m];
  }

  // ---------------------------------------------------------------- split

  /** `String.prototype.split` with a one-character separator: the pieces
      between separators, including empty ones (so there is always at least
      one piece, and `""` splits into `[""]`). */
  function Split(s: string, sep: char): (parts: seq<string>)
    ensures |parts| >= 1
    ensures forall k :: 0 <= k < |parts| ==> sep !in parts[k]
  {
    if s == [] then [[]]
    else
      var rest := Split(s[1..], sep);
      if s[0] == sep then [[]] + rest else [[s[0]] + rest[0]] + rest[1..]
  }

  /** `Array.prototype.join` with a one-character separator. */
  function Join(parts: seq<string>, sep: char): string
    requires |parts| >= 1
  {
    if |parts| == 1 then parts[0] else parts[0] + [sep] + Join(parts[1..], sep)
  }

  /** Splitting loses nothing: joining the pieces back gives the input. */
  lemma {:induction false} JoinSplit(s: string, sep: char)
    ensures Join(Split(s, sep), sep) == s
  {
    if s != [] {
      var rest := Split(s[1..], sep);
      JoinSplit(s[1..], sep);
      if s[0] != sep && |rest| > 1 {
        var parts := [[s[0]] + rest[0]] + rest[1..];
        assert parts[1..] == rest[1..];
        assert Join(rest, sep) == rest[0] + [sep] + Join(rest[1..], sep);
      }
    }
  }

  /** `filter(Boolean)` on strings: keeps the non-empty ones, in order. */
  function NonEmpty(parts: seq<string>): seq<string>
  {
    if parts == [] then []
    else if parts[0] == [] then NonEmpty(parts[1..])
    else [parts[0]] + NonEmpty(parts[1..])
  }

  /** Concatenation of a sequence of strings with no separator. */
  function Concat(parts: seq<string>): string
  {
    if parts == [] then [] else parts[0] + Concat(parts[1..])
  }

  /** `s` with every occurrence of `c` removed. */
  function Without(s: string, c: char): string
  {
    if s == [] then [] else (if s[0] == c then [] else [s[0]]) + Without(s[1..], c)
  }

  /** `cell.split(sep).filter(Boolean)`. */
  function SplitTokens(cell: string, sep: char): seq<string>
  {
    NonEmpty(Split(cell, sep))
  }

  lemma {:induction false} ConcatSplit(s: string, sep: char)
    ensures Concat(Split(s, sep)) == Without(s, sep)
  {
    if s != [] {
      ConcatSplit(s[1..], sep);
      var rest := Split(s[1..], sep);
      if s[0] != sep {
        var parts := [[s[0]] + rest[0]] + rest[1..];
        assert parts[1..] == rest[1..];
        assert Concat(rest) == rest[0] + Concat(rest[1..]);
      } else {
        assert ([[]] + rest)[1..] == rest;
      }
    }
  }

  lemma {:induction false} ConcatNonEmpty(parts: seq<string>)
    ensures Concat(NonEmpty(parts)) == Concat(parts)
    ensures forall k :: 0 <= k < |NonEmpty(parts)| ==> NonEmpty(parts)[k] in parts && NonEmpty(parts)[k] != []
  {
    if parts != [] {
      ConcatNonEmpty(parts[1..]);
      if parts[0] != [] {
        assert ([parts[0]] + NonEmpty(parts[1..]))[1..] == NonEmpty(parts[1..]);
      }
    }
  }

  lemma {:induction false} WithoutEmpty(s: string, c: char)
    ensures Without(s, c) == [] <==> forall i :: 0 <= i < |s| ==> s[i] == c
  {
    if s != [] {
      WithoutEmpty(s[1..], c);
      assert forall i :: 1 <= i < |s| ==> s[i] == s[1..][i - 1];
    }
  }

  /** The tokens of a cell are non-empty and free of the separator; glued
      back together they are the cell with its separators removed, so a cell
      has no tokens exactly when it is made of separators only. */
  lemma SplitTokensFacts(cell: string, sep: char)
    ensures forall k :: 0 <= k < |SplitTokens(cell, sep)| ==>
      SplitTokens(cell, sep)[k] != [] && sep !in SplitTokens(cell, sep)[k]
    ensures Concat(SplitTokens(cell, sep)) == Without(cell, sep)
    ensures SplitTokens(cell, sep) == [] <==> forall i :: 0 <= i < |cell| ==> cell[i] == sep
  {
    var parts := Split(cell, sep);
    ConcatNonEmpty(parts);
    ConcatSplit(cell, sep);
    WithoutEmpty(cell, sep);
    var ts := SplitTokens(cell, sep);
    if ts != [] {
      assert Concat(ts) == ts[0] + Concat(ts[1..]);
    }
  }
}
