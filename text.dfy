/** String operations of the two host languages, written out on `seq<char>`:
    prefix tests, substring search (Python's `str.find`, JavaScript's `indexOf`
    and `includes`), first-occurrence replacement, the last `/`-segment, both
    languages' whitespace trimming, and `map(f).join('')`. */
module Text {

  predicate StartsWith(s: string, prefix: string)
  {
    |prefix| <= |s| && s[..|prefix|] == prefix
  }

  /** `sub` occurs in `s` starting at index `i`. */
  predicate OccursAt(s: string, sub: string, i: int)
  {
    0 <= i && i + |sub| <= |s| && s[i..i + |sub|] == sub
  }

  /** Python's `s.find(sub, start)` (and JavaScript's `s.indexOf(sub, start)`):
      the lowest index at or after `start` where `sub` occurs, or -1. */
  function Find(s: string, sub: string, start: nat): (r: int)
    ensures r == -1 || (start <= r && OccursAt(s, sub, r))
    ensures r == -1 ==> forall i :: start <= i ==> !OccursAt(s, sub, i)
    ensures r != -1 ==> forall i :: start <= i < r ==> !OccursAt(s, sub, i)
    decreases |s| - start
  {
    if start + |sub| > |s| then -1
    else if s[start..start + |sub|] == sub then start
    else Find(s, sub, start + 1)
  }

  /** JavaScript's `s.includes(sub)`. */
  function Contains(s: string, sub: string): (b: bool)
    ensures b <==> exists i :: OccursAt(s, sub, i)
  {
    Find(s, sub, 0) != -1
  }

  /** JavaScript's `s.replace(pattern, replacement)` with a string pattern:
      only the first occurrence is replaced. */
  function ReplaceFirst(s: string, pattern: string, replacement: string): (r: string)
    ensures (forall i :: !OccursAt(s, pattern, i)) ==> r == s
    ensures forall i :: OccursAt(s, pattern, i) && (forall j :: 0 <= j < i ==> !OccursAt(s, pattern, j)) ==>
              r == s[..i] + replacement + s[i + |pattern|..]
  {
    var i := Find(s, pattern, 0);
    if i == -1 then s else s[..i] + replacement + s[i + |pattern|..]
  }

  /** Replacing cannot bring in a character that neither the text nor the
      replacement holds. */
  lemma ReplaceFirstAvoids(s: string, pattern: string, replacement: string, c: char)
    requires c !in s && c !in replacement
    ensures c !in ReplaceFirst(s, pattern, replacement)
  {
    var i := Find(s, pattern, 0);
    if i != -1 {
      assert forall d :: d in s[..i] ==> d in s;
      assert forall d :: d in s[i + |pattern|..] ==> d in s;
    }
  }

  /** JavaScript's `s.split('/').pop()`: the text after the last `/`, or all
      of `s` when it has none. */
  function LastSegment(s: string): (r: string)
    ensures '/' !in r
    ensures |r| <= |s| && r == s[|s| - |r|..]
    ensures |r| == |s| || s[|s| - |r| - 1] == '/'
  {
    if |s| == 0 || s[|s| - 1] == '/' then []
    else LastSegment(s[..|s| - 1]) + [s[|s| - 1]]
  }

  /** The characters JavaScript's `String.prototype.trim` removes: WhiteSpace
      and LineTerminator of ECMA-262 (sections 12.2 and 12.3), the space
      separators (Zs) included. */
  predicate IsJsSpace(c: char)
  {
    c == '\t' || c == '\n' || c == '\U{B}' || c == '\U{C}' || c == '\r' || c == ' '
    || c == '\U{A0}' || c == '\U{1680}' || ('\U{2000}' <= c <= '\U{200A}')
    || c == '\U{2028}' || c == '\U{2029}' || c == '\U{202F}' || c == '\U{205F}'
    || c == '\U{3000}' || c == '\U{FEFF}'
  }

  /** The characters for which Python's `str.isspace` holds; `str.strip()`
      removes them and the regular expression `\s` matches them. Unlike
      JavaScript's set it holds the separators U+001C to U+001F and U+0085,
      and not U+FEFF. */
  predicate IsPySpace(c: char)
  {
    ('\t' <= c <= '\r') || ('\U{1C}' <= c <= '\U{1F}') || c == ' '
    || c == '\U{85}' || c == '\U{A0}' || c == '\U{1680}' || ('\U{2000}' <= c <= '\U{200A}')
    || c == '\U{2028}' || c == '\U{2029}' || c == '\U{202F}' || c == '\U{205F}' || c == '\U{3000}'
  }

  /** `s` without its leading characters in the class `space`. */
  function TrimStart(s: string, space: char -> bool): (r: string)
    ensures |r| <= |s| && r == s[|s| - |r|..]
    ensures r == [] || !space(r[0])
  {
    if |s| > 0 && space(s[0]) then TrimStart(s[1..], space) else s
  }

  /** Everything `TrimStart` drops is in the class. */
  lemma {:induction false} TrimStartDrops(s: string, space: char -> bool)
    ensures forall i :: 0 <= i < |s| - |TrimStart(s, space)| ==> space(s[i])
  {
    if |s| > 0 && space(s[0]) {
      TrimStartDrops(s[1..], space);
      forall i | 1 <= i < |s| - |TrimStart(s, space)|
        ensures space(s[i])
      {
        assert s[i] == s[1..][i - 1];
      }
    }
  }

  /** `s` without its trailing characters in the class `space`. */
  function TrimEnd(s: string, space: char -> bool): (r: string)
    ensures |r| <= |s| && r == s[..|r|]
    ensures r == [] || !space(r[|r| - 1])
  {
    if |s| > 0 && space(s[|s| - 1]) then TrimEnd(s[..|s| - 1], space) else s
  }

  /** Everything `TrimEnd` drops is in the class. */
  lemma {:induction false} TrimEndDrops(s: string, space: char -> bool)
    ensures forall i :: |TrimEnd(s, space)| <= i < |s| ==> space(s[i])
  {
    if |s| > 0 && space(s[|s| - 1]) {
      TrimEndDrops(s[..|s| - 1], space);
    }
  }

  /** `s` with the characters of the class `space` removed from both ends. */
  function Trim(s: string, space: char -> bool): (r: string)
    ensures r == [] || (!space(r[0]) && !space(r[|r| - 1]))
  {
    TrimEnd(TrimStart(s, space), space)
  }

  /** JavaScript's `s.trim()`. */
  function JsTrim(s: string): string
  {
    Trim(s, IsJsSpace)
  }

  /** Python's `s.strip()` with no argument. */
  function PyStrip(s: string): string
  {
    Trim(s, IsPySpace)
  }

  /** Trimming removes exactly the padding: leading characters of the class
      in front of a part that does not start with one. */
  lemma {:induction false} TrimStartPadded(pad: string, rest: string, space: char -> bool)
    requires forall c :: c in pad ==> space(c)
    requires rest == [] || !space(rest[0])
    ensures TrimStart(pad + rest, space) == rest
  {
    if |pad| > 0 {
      assert (pad + rest)[1..] == pad[1..] + rest;
      TrimStartPadded(pad[1..], rest, space);
    } else {
      assert pad + rest == rest;
    }
  }

  lemma {:induction false} TrimEndPadded(rest: string, pad: string, space: char -> bool)
    requires forall c :: c in pad ==> space(c)
    requires rest == [] || !space(rest[|rest| - 1])
    ensures TrimEnd(rest + pad, space) == rest
  {
    if |pad| > 0 {
      assert (rest + pad)[..|rest + pad| - 1] == rest + pad[..|pad| - 1];
      TrimEndPadded(rest, pad[..|pad| - 1], space);
    } else {
      assert rest + pad == rest;
    }
  }

  /** A text whose ends are not in the class, padded on both sides with
      characters of the class, trims back to the text. */
  lemma TrimPadded(front: string, text: string, back: string, space: char -> bool)
    requires forall c :: c in front ==> space(c)
    requires forall c :: c in back ==> space(c)
    requires text != [] && !space(text[0]) && !space(text[|text| - 1])
    ensures Trim(front + text + back, space) == text
  {
    assert front + text + back == front + (text + back);
    TrimStartPadded(front, text + back, space);
    TrimEndPadded(text, back, space);
  }

  /** The markup `<tag>text</tag>`; neither program escapes the text. */
  function Wrap(tag: string, text: string): string
  {
    "<" + tag + ">" + text + "</" + tag + ">"
  }

  /** JavaScript's `xs.map(f).join('')`: the images of the elements, in
      order, with nothing between them. */
  function JoinMap<T>(xs: seq<T>, f: T -> string): string
  {
    if |xs| == 0 then "" else f(xs[0]) + JoinMap(xs[1..], f)
  }

  lemma {:induction false} JoinMapAppend<T>(a: seq<T>, b: seq<T>, f: T -> string)
    ensures JoinMap(a + b, f) == JoinMap(a, f) + JoinMap(b, f)
  {
    if |a| == 0 {
      assert a + b == b;
    } else {
      assert (a + b)[1..] == a[1..] + b;
      JoinMapAppend(a[1..], b, f);
    }
  }

  /** Number of occurrences of the character `c` in `s`. */
  function CountOf(c: char, s: string): nat
  {
    if |s| == 0 then 0 else (if s[0] == c then 1 else 0) + CountOf(c, s[1..])
  }

  lemma {:induction false} CountOfAppend(c: char, a: string, b: string)
    ensures CountOf(c, a + b) == CountOf(c, a) + CountOf(c, b)
  {
    if |a| == 0 {
      assert a + b == b;
    } else {
      assert (a + b)[1..] == a[1..] + b;
      CountOfAppend(c, a[1..], b);
    }
  }

  /** The characters of `s` that satisfy `keep`, in order. */
  function Keep(s: string, keep: char -> bool): (r: string)
    ensures forall c :: c in r ==> keep(c)
  {
    if |s| == 0 then "" else (if keep(s[0]) then [s[0]] else "") + Keep(s[1..], keep)
  }

  lemma {:induction false} KeepAppend(a: string, b: string, keep: char -> bool)
    ensures Keep(a + b, keep) == Keep(a, keep) + Keep(b, keep)
  {
    if |a| == 0 {
      assert a + b == b;
    } else {
      assert (a + b)[1..] == a[1..] + b;
      KeepAppend(a[1..], b, keep);
    }
  }

  /** Filtering keeps a string whose characters all pass. */
  lemma {:induction false} KeepAll(s: string, keep: char -> bool)
    requires forall i :: 0 <= i < |s| ==> keep(s[i])
    ensures Keep(s, keep) == s
  {
    if |s| > 0 {
      KeepAll(s[1..], keep);
    }
  }

  /** Filtering by a wider class first does not change what a narrower
      filter keeps. */
  lemma {:induction false} KeepNarrower(s: string, wide: char -> bool, narrow: char -> bool)
    requires forall c :: narrow(c) ==> wide(c)
    ensures Keep(Keep(s, wide), narrow) == Keep(s, narrow)
  {
    if |s| > 0 {
      var head := if wide(s[0]) then [s[0]] else "";
      KeepAppend(head, Keep(s[1..], wide), narrow);
      KeepNarrower(s[1..], wide, narrow);
      if wide(s[0]) {
        assert Keep(head, narrow) == (if narrow(s[0]) then [s[0]] else "") by {
          assert head[1..] == "";
        }
      }
    }
  }
}
