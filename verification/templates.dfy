/**
 * Placeholder expansion of src/lib/templates.ts: a template is scanned left
 * to right; `{key}` is replaced by what the resolver returns for `key` (every
 * character up to the first `}` after the `{`), an unterminated `{...` at the
 * end is kept as it stands, and every other character is copied.
 *
 * The specification splits a template into segments. `Source` puts the
 * segments back into the template text, and the split is the only
 * well-formed one with that text; `Render` is what the scanner outputs.
 */
module Templates {

  /** One piece of a template: a character copied as it is, a closed
      placeholder with its key, or an unterminated `{` with the rest of the
      template after it. */
  datatype Segment =
    | Literal(c: char)
    | Placeholder(key: string)
    | Unclosed(text: string)

  /** The number of characters of `s` before its first `}` (all of them when
      there is none). */
  function KeyLength(s: string): (n: nat)
    ensures n <= |s|
  {
    if s == [] || s[0] == '}' then 0 else 1 + KeyLength(s[1..])
  }

  /** The key ends at a `}` or at the end. */
  lemma {:induction false} KeyLengthEnd(s: string)
    ensures KeyLength(s) == |s| || s[KeyLength(s)] == '}'
  {
    if s != [] && s[0] != '}' {
      KeyLengthEnd(s[1..]);
    }
  }

  /** The key ends no later than any `}`. */
  lemma {:induction false} KeyLengthBefore(s: string, k: nat)
    requires k < |s| && s[k] == '}'
    ensures KeyLength(s) <= k
  {
    if s[0] != '}' {
      KeyLengthBefore(s[1..], k - 1);
    }
  }

  /** The key stops at the first `}`. */
  lemma {:induction false} KeyLengthFacts(s: string)
    ensures forall k :: 0 <= k < KeyLength(s) ==> s[k] != '}'
    ensures KeyLength(s) == |s| || s[KeyLength(s)] == '}'
  {
    if s != [] && s[0] != '}' {
      KeyLengthFacts(s[1..]);
      assert forall k :: 1 <= k <= |s| - 1 ==> s[1..][k - 1] == s[k];
    }
  }

  /** The segments of a template, in order. */
  function Segments(t: string): seq<Segment>
    decreases |t|
  {
    if t == [] then []
    else if t[0] == '{' then
      var n := KeyLength(t[1..]);
      if n + 1 < |t| then [Placeholder(t[1..n + 1])] + Segments(t[n + 2..])
      else [Unclosed(t)]
    else [Literal(t[0])] + Segments(t[1..])
  }

  /** The template text of a segment. */
  function SourceOf(s: Segment): string {
    match s
    case Literal(c) => [c]
    case Placeholder(key) => "{" + key + "}"
    case Unclosed(text) => text
  }

  /** The template text of a segment sequence. */
  function Source(segs: seq<Segment>): string {
    if segs == [] then "" else SourceOf(segs[0]) + Source(segs[1..])
  }

  /** What the scanner outputs for a segment: a placeholder becomes the
      resolver's answer for its key, the rest is copied. */
  function RenderOf(s: Segment, replace: string -> string): string {
    match s
    case Literal(c) => [c]
    case Placeholder(key) => replace(key)
    case Unclosed(text) => text
  }

  function Render(segs: seq<Segment>, replace: string -> string): string {
    if segs == [] then "" else RenderOf(segs[0], replace) + Render(segs[1..], replace)
  }

  /** The keys the resolver is asked for, in order. */
  function Keys(segs: seq<Segment>): seq<string> {
    if segs == [] then []
    else (if segs[0].Placeholder? then [segs[0].key] else []) + Keys(segs[1..])
  }

  /** The shape of a segmentation: a literal is never `{`, a key holds no
      `}`, and an unterminated `{` comes last and runs to the end. */
  predicate WellFormed(segs: seq<Segment>) {
    forall i :: 0 <= i < |segs| ==>
      match segs[i]
      case Literal(c) => c != '{'
      case Placeholder(key) => '}' !in key
      case Unclosed(text) => i == |segs| - 1 && |text| >= 1 && text[0] == '{' && '}' !in text
  }

  /* ---------------------------------------------------------------------- */
  /* The segmentation                                                        */
  /* ---------------------------------------------------------------------- */

  /** The key of `{key}rest` is `key` when `key` holds no `}`. */
  lemma KeyLengthOf(key: string, rest: string)
    requires '}' !in key
    ensures KeyLength(key + "}" + rest) == |key|
  {
    var s := key + "}" + rest;
    assert s[|key|] == '}';
    KeyLengthBefore(s, |key|);
    KeyLengthEnd(s);
    assert forall k :: 0 <= k < |key| ==> s[k] == key[k] && key[k] in key;
  }

  /** Without a `}`, the key runs to the end. */
  lemma KeyLengthAll(key: string)
    requires '}' !in key
    ensures KeyLength(key) == |key|
  {
    KeyLengthEnd(key);
    assert forall k :: 0 <= k < |key| ==> key[k] in key;
  }

  lemma SourceCons(s: Segment, rest: seq<Segment>)
    ensures Source([s] + rest) == SourceOf(s) + Source(rest)
  {
    assert ([s] + rest)[1..] == rest;
  }

  lemma RenderCons(s: Segment, rest: seq<Segment>, replace: string -> string)
    ensures Render([s] + rest, replace) == RenderOf(s, replace) + Render(rest, replace)
  {
    assert ([s] + rest)[1..] == rest;
  }

  lemma KeysCons(s: Segment, rest: seq<Segment>)
    ensures Keys([s] + rest) == (if s.Placeholder? then [s.key] else []) + Keys(rest)
  {
    assert ([s] + rest)[1..] == rest;
  }

  /** `Segments` one segment at a time. */
  lemma SegmentsStep(t: string)
    requires t != []
    ensures t[0] != '{' ==> Segments(t) == [Literal(t[0])] + Segments(t[1..])
    ensures t[0] == '{' && KeyLength(t[1..]) + 1 < |t| ==>
      var n := KeyLength(t[1..]);
      t[n + 1] == '}' && Segments(t) == [Placeholder(t[1..n + 1])] + Segments(t[n + 2..])
    ensures t[0] == '{' && KeyLength(t[1..]) + 1 >= |t| ==> Segments(t) == [Unclosed(t)]
  {
    var n := KeyLength(t[1..]);
    if t[0] == '{' && n + 1 < |t| {
      KeyLengthFacts(t[1..]);
      assert t[1..][n] == t[n + 1];
    }
  }

  /** A template that opens with a closed placeholder. */
  lemma PlaceholderText(t: string, n: nat)
    requires n + 1 < |t| && t[0] == '{' && t[n + 1] == '}'
    ensures t == "{" + t[1..n + 1] + "}" + t[n + 2..]
  {
    assert t == t[..1] + t[1..n + 1] + t[n + 1..n + 2] + t[n + 2..];
  }

  lemma SourceLiteral(t: string)
    requires t != [] && t[0] != '{' && Source(Segments(t[1..])) == t[1..]
    ensures Source(Segments(t)) == t
  {
    SegmentsStep(t);
    SourceCons(Literal(t[0]), Segments(t[1..]));
    assert t == [t[0]] + t[1..];
  }

  lemma SourcePlaceholder(t: string, n: nat)
    requires t != [] && t[0] == '{' && n == KeyLength(t[1..]) && n + 1 < |t|
    requires Source(Segments(t[n + 2..])) == t[n + 2..]
    ensures Source(Segments(t)) == t
  {
    SegmentsStep(t);
    SourceCons(Placeholder(t[1..n + 1]), Segments(t[n + 2..]));
    PlaceholderText(t, n);
  }

  /** Splitting a template and putting it back together gives the template. */
  lemma {:induction false} SourceSegments(t: string)
    ensures Source(Segments(t)) == t
    decreases |t|
  {
    if t != [] {
      var n := KeyLength(t[1..]);
      if t[0] != '{' {
        SourceSegments(t[1..]);
        SourceLiteral(t);
      } else if n + 1 < |t| {
        SourceSegments(t[n + 2..]);
        SourcePlaceholder(t, n);
      } else {
        SegmentsStep(t);
        SourceCons(Unclosed(t), []);
      }
    }
  }

  /** The key of a closed placeholder holds no `}`. */
  lemma KeyClosed(t: string, n: nat)
    requires t != [] && n == KeyLength(t[1..])
    ensures '}' !in t[1..n + 1]
  {
    KeyLengthFacts(t[1..]);
    assert forall k :: 0 <= k < n ==> t[1..n + 1][k] == t[1..][k];
  }

  /** An unterminated `{` runs to the end without a `}`. */
  lemma UnclosedOpen(t: string)
    requires t != [] && t[0] == '{' && KeyLength(t[1..]) + 1 >= |t|
    ensures '}' !in t
  {
    KeyLengthFacts(t[1..]);
    assert forall k :: 1 <= k < |t| ==> t[k] == t[1..][k - 1];
  }

  /** The split of a template is well formed. */
  lemma {:induction false} SegmentsWellFormed(t: string)
    ensures WellFormed(Segments(t))
    decreases |t|
  {
    if t != [] {
      SegmentsStep(t);
      var n := KeyLength(t[1..]);
      if t[0] != '{' {
        SegmentsWellFormed(t[1..]);
        ConsWellFormed(Literal(t[0]), Segments(t[1..]));
      } else if n + 1 < |t| {
        SegmentsWellFormed(t[n + 2..]);
        KeyClosed(t, n);
        ConsWellFormed(Placeholder(t[1..n + 1]), Segments(t[n + 2..]));
      } else {
        UnclosedOpen(t);
      }
    }
  }

  lemma ConsWellFormed(s: Segment, rest: seq<Segment>)
    requires WellFormed(rest) && (s.Literal? || s.Placeholder?) && WellFormed([s])
    ensures WellFormed([s] + rest)
  {
    var all := [s] + rest;
    forall i | 1 <= i < |all| ensures all[i] == rest[i - 1] {
    }
  }

  lemma LiteralText(c: char, r: string)
    ensures ([c] + r)[0] == c && ([c] + r)[1..] == r
  {
  }

  lemma PlaceholderParts(key: string, r: string)
    ensures var t := "{" + key + "}" + r;
      |t| == |key| + 2 + |r| && t[0] == '{' && t[1..] == key + "}" + r
      && t[1..|key| + 1] == key && t[|key| + 2..] == r
  {
    var t := "{" + key + "}" + r;
    assert t[1..] == key + "}" + r;
    assert t[1..|key| + 1] == key;
  }

  lemma UnclosedParts(text: string)
    requires |text| >= 1 && '}' !in text
    ensures '}' !in text[1..]
  {
    assert forall k :: 0 <= k < |text| - 1 ==> text[1..][k] == text[k + 1];
  }

  lemma UniqueLiteral(c: char, rest: seq<Segment>)
    requires c != '{' && Segments(Source(rest)) == rest
    ensures Segments(Source([Literal(c)] + rest)) == [Literal(c)] + rest
  {
    SourceCons(Literal(c), rest);
    LiteralText(c, Source(rest));
    SegmentsStep([c] + Source(rest));
  }

  lemma UniquePlaceholder(key: string, rest: seq<Segment>)
    requires '}' !in key && Segments(Source(rest)) == rest
    ensures Segments(Source([Placeholder(key)] + rest)) == [Placeholder(key)] + rest
  {
    var r := Source(rest);
    SourceCons(Placeholder(key), rest);
    PlaceholderParts(key, r);
    KeyLengthOf(key, r);
    SegmentsStep("{" + key + "}" + r);
  }

  lemma UniqueUnclosed(text: string)
    requires |text| >= 1 && text[0] == '{' && '}' !in text
    ensures Segments(Source([Unclosed(text)])) == [Unclosed(text)]
  {
    SourceCons(Unclosed(text), []);
    assert [Unclosed(text)] + [] == [Unclosed(text)];
    assert text + [] == text;
    UnclosedParts(text);
    KeyLengthAll(text[1..]);
    SegmentsStep(text);
  }

  /** The split is the only well-formed segmentation of a template: any
      well-formed segments with the same text are those segments. */
  lemma {:induction false} SegmentsUnique(segs: seq<Segment>)
    requires WellFormed(segs)
    ensures Segments(Source(segs)) == segs
    decreases |segs|
  {
    if segs != [] {
      var rest := segs[1..];
      assert segs == [segs[0]] + rest;
      assert WellFormed(rest) by {
        forall i | 0 <= i < |rest| ensures rest[i] == segs[i + 1] {
        }
      }
      match segs[0]
      case Literal(c) =>
        SegmentsUnique(rest);
        UniqueLiteral(c, rest);
      case Placeholder(key) =>
        SegmentsUnique(rest);
        UniquePlaceholder(key, rest);
      case Unclosed(text) =>
        assert rest == [];
        UniqueUnclosed(text);
    }
  }

  /* ---------------------------------------------------------------------- */
  /* Rendering                                                               */
  /* ---------------------------------------------------------------------- */

  /** The output of `evaluate` for a template and a resolver. */
  function Expand(t: string, replace: string -> string): string {
    Render(Segments(t), replace)
  }

  /** The keys `evaluate` asks the resolver for, one per closed placeholder,
      left to right. */
  function KeysOf(t: string): seq<string> {
    Keys(Segments(t))
  }

  lemma ExpandLiteral(t: string, replace: string -> string)
    requires t != [] && t[0] != '{'
    ensures Expand(t, replace) == [t[0]] + Expand(t[1..], replace)
    ensures KeysOf(t) == KeysOf(t[1..])
  {
    SegmentsStep(t);
    RenderCons(Literal(t[0]), Segments(t[1..]), replace);
    KeysCons(Literal(t[0]), Segments(t[1..]));
  }

  lemma ExpandPlaceholder(t: string, n: nat, replace: string -> string)
    requires t != [] && t[0] == '{' && n == KeyLength(t[1..]) && n + 1 < |t|
    ensures Expand(t, replace) == replace(t[1..n + 1]) + Expand(t[n + 2..], replace)
    ensures KeysOf(t) == [t[1..n + 1]] + KeysOf(t[n + 2..])
  {
    SegmentsStep(t);
    RenderCons(Placeholder(t[1..n + 1]), Segments(t[n + 2..]), replace);
    KeysCons(Placeholder(t[1..n + 1]), Segments(t[n + 2..]));
  }

  lemma ExpandUnclosed(t: string, replace: string -> string)
    requires t != [] && t[0] == '{' && KeyLength(t[1..]) + 1 >= |t|
    ensures Expand(t, replace) == t && KeysOf(t) == []
  {
    SegmentsStep(t);
    RenderCons(Unclosed(t), [], replace);
    KeysCons(Unclosed(t), []);
    assert [Unclosed(t)] + [] == [Unclosed(t)];
  }

  /** Nothing is left to scan. */
  lemma ExpandEmpty(t: string, replace: string -> string)
    requires t == []
    ensures Expand(t, replace) == [] && KeysOf(t) == []
  {
  }

  lemma Regroup<T>(a: seq<T>, b: seq<T>, c: seq<T>)
    ensures a + (b + c) == (a + b) + c
  {
  }

  /** The slices of the scanned template that the scanner and the
      specification name differently. */
  lemma SuffixSlices(t: string, i: nat, n: nat)
    requires i + n + 1 < |t|
    ensures t[i..][1..n + 1] == t[i + 1..i + 1 + n]
    ensures t[i..][n + 2..] == t[i + n + 2..]
  {
  }

  /* ---------------------------------------------------------------------- */
  /* What an expansion does                                                  */
  /* ---------------------------------------------------------------------- */

  /** The text of a placeholder; as a resolver, it puts the braces back. */
  function Braced(key: string): string {
    "{" + key + "}"
  }

  /** Text without a `{` is copied as it is, `}` included, and costs no call. */
  lemma {:induction false} LiteralPrefix(p: string, rest: string, replace: string -> string)
    requires '{' !in p
    ensures Expand(p + rest, replace) == p + Expand(rest, replace)
    ensures KeysOf(p + rest) == KeysOf(rest)
  {
    if p == [] {
      assert p + rest == rest;
    } else {
      var t := p + rest;
      assert t[0] == p[0] && t[1..] == p[1..] + rest;
      assert p[0] in p;
      ExpandLiteral(t, replace);
      assert '{' !in p[1..] by {
        forall k | 0 <= k < |p| - 1 ensures p[1..][k] in p {
          assert p[1..][k] == p[k + 1];
        }
      }
      LiteralPrefix(p[1..], rest, replace);
      Regroup([p[0]], p[1..], Expand(rest, replace));
      assert [p[0]] + p[1..] == p;
    }
  }

  /** A template without a `{` comes out unchanged and the resolver is
      never called. */
  lemma NoPlaceholder(t: string, replace: string -> string)
    requires '{' !in t
    ensures Expand(t, replace) == t && KeysOf(t) == []
  {
    LiteralPrefix(t, [], replace);
    assert t + [] == t;
    ExpandEmpty([], replace);
  }

  /** `{key}` is replaced by the resolver's answer for `key`, which may hold
      a `{` but not a `}`, and the resolver is asked for `key` once. */
  lemma ClosedPlaceholder(key: string, rest: string, replace: string -> string)
    requires '}' !in key
    ensures Expand("{" + key + "}" + rest, replace) == replace(key) + Expand(rest, replace)
    ensures KeysOf("{" + key + "}" + rest) == [key] + KeysOf(rest)
  {
    var t := "{" + key + "}" + rest;
    PlaceholderParts(key, rest);
    KeyLengthOf(key, rest);
    ExpandPlaceholder(t, |key|, replace);
  }

  /** A `{` that no `}` follows is kept with everything after it, and the
      resolver is not called. */
  lemma UnclosedKept(text: string, replace: string -> string)
    requires '}' !in text
    ensures Expand("{" + text, replace) == "{" + text
    ensures KeysOf("{" + text) == []
  {
    var t := "{" + text;
    assert t[0] == '{' && t[1..] == text;
    KeyLengthAll(text);
    ExpandUnclosed(t, replace);
  }

  /** Text, one placeholder, text: the placeholder is replaced and the
      resolver is asked for its key alone. */
  lemma OnePlaceholder(p: string, key: string, q: string, replace: string -> string)
    requires '{' !in p && '}' !in key && '{' !in q
    ensures Expand(p + Braced(key) + q, replace) == p + replace(key) + q
    ensures KeysOf(p + Braced(key) + q) == [key]
  {
    var rest := "{" + key + "}" + q;
    assert p + Braced(key) + q == p + rest;
    LiteralPrefix(p, rest, replace);
    ClosedPlaceholder(key, q, replace);
    NoPlaceholder(q, replace);
    assert [key] + [] == [key];
  }

  /** Text, then a `{` that no `}` follows: all of it is kept. */
  lemma UnclosedAfter(p: string, text: string, replace: string -> string)
    requires '{' !in p && '}' !in text
    ensures Expand(p + "{" + text, replace) == p + "{" + text
    ensures KeysOf(p + "{" + text) == []
  {
    assert p + "{" + text == p + ("{" + text);
    LiteralPrefix(p, "{" + text, replace);
    UnclosedKept(text, replace);
  }

  lemma {:induction false} RenderAgrees(segs: seq<Segment>, r1: string -> string, r2: string -> string)
    requires forall k :: k in Keys(segs) ==> r1(k) == r2(k)
    ensures Render(segs, r1) == Render(segs, r2)
  {
    if segs != [] {
      RenderAgrees(segs[1..], r1, r2);
    }
  }

  /** The output depends on the resolver only through the keys it is asked for. */
  lemma ExpandAgrees(t: string, r1: string -> string, r2: string -> string)
    requires forall k :: k in KeysOf(t) ==> r1(k) == r2(k)
    ensures Expand(t, r1) == Expand(t, r2)
  {
    RenderAgrees(Segments(t), r1, r2);
  }

  lemma {:induction false} RenderBraced(segs: seq<Segment>)
    ensures Render(segs, Braced) == Source(segs)
  {
    if segs != [] {
      RenderBraced(segs[1..]);
    }
  }

  /** Answering every key with the placeholder itself gives the template back. */
  lemma ExpandBraced(t: string)
    ensures Expand(t, Braced) == t
  {
    RenderBraced(Segments(t));
    SourceSegments(t);
  }

  /* ---------------------------------------------------------------------- */
  /* The scanner                                                             */
  /* ---------------------------------------------------------------------- */

  /** The index of the first `}` at or after `k`, or the end. */
  function KeyEnd(t: string, k: nat): (j: nat)
    requires k <= |t|
    ensures k <= j <= |t|
    ensures j == |t| || t[j] == '}'
    decreases |t| - k
  {
    if k == |t| || t[k] == '}' then k else KeyEnd(t, k + 1)
  }

  /** The key that starts at `k`: the characters up to the first `}` or the end. */
  function KeyAt(t: string, k: nat): string
    requires k <= |t|
    decreases |t| - k
  {
    if k == |t| || t[k] == '}' then [] else [t[k]] + KeyAt(t, k + 1)
  }

  lemma {:induction false} KeyAtSlice(t: string, k: nat)
    requires k <= |t|
    ensures KeyAt(t, k) == t[k..KeyEnd(t, k)]
    decreases |t| - k
  {
    if k < |t| && t[k] != '}' {
      KeyAtSlice(t, k + 1);
      assert t[k..KeyEnd(t, k)] == [t[k]] + t[k + 1..KeyEnd(t, k)];
    }
  }

  /** `Expand(t[i..])`, by index, the way the scanner walks the template. */
  function ExpandFrom(t: string, i: nat, replace: string -> string): string
    requires i <= |t|
    decreases |t| - i
  {
    if i == |t| then ""
    else if t[i] == '{' then
      var j := KeyEnd(t, i + 1);
      if j < |t| then replace(KeyAt(t, i + 1)) + ExpandFrom(t, j + 1, replace) else t[i..]
    else [t[i]] + ExpandFrom(t, i + 1, replace)
  }

  /** `KeysOf(t[i..])`, by index. */
  function KeysFrom(t: string, i: nat): seq<string>
    requires i <= |t|
    decreases |t| - i
  {
    if i == |t| then []
    else if t[i] == '{' then
      var j := KeyEnd(t, i + 1);
      if j < |t| then [KeyAt(t, i + 1)] + KeysFrom(t, j + 1) else []
    else KeysFrom(t, i + 1)
  }

  lemma {:induction false} KeyEndLength(t: string, k: nat)
    requires k <= |t|
    ensures KeyEnd(t, k) == k + KeyLength(t[k..])
    decreases |t| - k
  {
    if k < |t| {
      assert t[k..][0] == t[k];
      if t[k] != '}' {
        KeyEndLength(t, k + 1);
        assert t[k..][1..] == t[k + 1..];
      }
    }
  }

  lemma BridgeLiteral(t: string, i: nat, replace: string -> string)
    requires i < |t| && t[i] != '{'
    requires ExpandFrom(t, i + 1, replace) == Expand(t[i + 1..], replace)
    requires KeysFrom(t, i + 1) == KeysOf(t[i + 1..])
    ensures ExpandFrom(t, i, replace) == Expand(t[i..], replace)
    ensures KeysFrom(t, i) == KeysOf(t[i..])
  {
    assert t[i..][0] == t[i] && t[i..][1..] == t[i + 1..];
    ExpandLiteral(t[i..], replace);
  }

  /** `ExpandPlaceholder` for the placeholder that opens at index `i`. */
  lemma ExpandPlaceholderAt(t: string, i: nat, replace: string -> string)
    requires i < |t| && t[i] == '{' && KeyEnd(t, i + 1) < |t|
    ensures Expand(t[i..], replace) == replace(KeyAt(t, i + 1)) + Expand(t[KeyEnd(t, i + 1) + 1..], replace)
    ensures KeysOf(t[i..]) == [KeyAt(t, i + 1)] + KeysOf(t[KeyEnd(t, i + 1) + 1..])
  {
    var n := KeyLength(t[i + 1..]);
    KeyEndLength(t, i + 1);
    KeyAtSlice(t, i + 1);
    assert t[i..][0] == t[i] && t[i..][1..] == t[i + 1..];
    SuffixSlices(t, i, n);
    ExpandPlaceholder(t[i..], n, replace);
  }

  lemma BridgePlaceholder(t: string, i: nat, replace: string -> string)
    requires i < |t| && t[i] == '{' && KeyEnd(t, i + 1) < |t|
    requires ExpandFrom(t, KeyEnd(t, i + 1) + 1, replace) == Expand(t[KeyEnd(t, i + 1) + 1..], replace)
    requires KeysFrom(t, KeyEnd(t, i + 1) + 1) == KeysOf(t[KeyEnd(t, i + 1) + 1..])
    ensures ExpandFrom(t, i, replace) == Expand(t[i..], replace)
    ensures KeysFrom(t, i) == KeysOf(t[i..])
  {
    ExpandPlaceholderAt(t, i, replace);
  }

  lemma BridgeUnclosed(t: string, i: nat, replace: string -> string)
    requires i < |t| && t[i] == '{' && KeyEnd(t, i + 1) == |t|
    ensures ExpandFrom(t, i, replace) == Expand(t[i..], replace)
    ensures KeysFrom(t, i) == KeysOf(t[i..])
  {
    KeyEndLength(t, i + 1);
    assert t[i..][0] == t[i] && t[i..][1..] == t[i + 1..];
    ExpandUnclosed(t[i..], replace);
  }

  /** Walking the template by index expands it as its segments say. */
  lemma {:induction false} ExpandFromSegments(t: string, i: nat, replace: string -> string)
    requires i <= |t|
    ensures ExpandFrom(t, i, replace) == Expand(t[i..], replace)
    ensures KeysFrom(t, i) == KeysOf(t[i..])
    decreases |t| - i
  {
    if i == |t| {
      ExpandEmpty(t[i..], replace);
    } else if t[i] != '{' {
      ExpandFromSegments(t, i + 1, replace);
      BridgeLiteral(t, i, replace);
    } else if KeyEnd(t, i + 1) < |t| {
      ExpandFromSegments(t, KeyEnd(t, i + 1) + 1, replace);
      BridgePlaceholder(t, i, replace);
    } else {
      BridgeUnclosed(t, i, replace);
    }
  }

  /** The scanner's state after `i` characters: the output so far and the
      expansion of the rest make the whole expansion, and likewise the calls. */
  predicate Scanned(t: string, i: nat, result: string, calls: seq<string>, replace: string -> string) {
    i <= |t|
    && ExpandFrom(t, 0, replace) == result + ExpandFrom(t, i, replace)
    && KeysFrom(t, 0) == calls + KeysFrom(t, i)
  }

  /** The inner loop of the scanner: the characters from `start` up to the
      first `}` or the end. */
  method ReadKey(template: string, start: nat) returns (key: string, index: nat)
    requires start <= |template|
    ensures index == KeyEnd(template, start)
    ensures key == KeyAt(template, start)
  {
    index := start;
    key := "";
    while index < |template| && template[index] != '}'
      invariant start <= index <= |template|
      invariant KeyEnd(template, index) == KeyEnd(template, start)
      invariant KeyAt(template, start) == key + KeyAt(template, index)
    {
      Regroup(key, [template[index]], KeyAt(template, index + 1));
      key := key + [template[index]];
      index := index + 1;
    }
    assert key + [] == key;
  }

  /** The scanner, as in the source: an outer loop over the template and an
      inner loop that collects a key. `calls` is the log of resolver calls. */
  method Evaluate(template: string, replace: string -> string) returns (r: string, ghost calls: seq<string>)
    ensures r == Expand(template, replace)
    ensures calls == KeysOf(template)
  {
    ExpandFromSegments(template, 0, replace);
    assert template[0..] == template;
    if |template| == 0 {
      return template, [];
    }
    var result := "";
    var index := 0;
    calls := [];
    while index < |template|
      invariant Scanned(template, index, result, calls, replace)
    {
      if template[index] == '{' {
        var startBrace := index;
        var key;
        key, index := ReadKey(template, index + 1);
        if index < |template| && template[index] == '}' {
          Regroup(result, replace(key), ExpandFrom(template, index + 1, replace));
          Regroup(calls, [key], KeysFrom(template, index + 1));
          var value := replace(key);
          calls := calls + [key];
          result := result + value;
          index := index + 1;
        } else {
          assert calls + [] == calls;
          result := result + template[startBrace..index];
          assert result + [] == result;
        }
      } else {
        Regroup(result, [template[index]], ExpandFrom(template, index + 1, replace));
        result := result + [template[index]];
        index := index + 1;
      }
    }
    r := result;
    assert r + [] == r && calls + [] == calls;
  }
}
