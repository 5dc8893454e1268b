/**
 * The two pieces of logic in the dashboard script
 * (Financial-advisor/Frontend/dashboard.js): `formatChatMessage`, which turns a
 * chatbot reply into the HTML shown in the chat window, and the class given to
 * a stock's change in the summary table.
 *
 * `formatChatMessage` first escapes `&`, `<` and `>`; from then on the only
 * `<` characters are those of the tags it inserts. The model keeps those
 * inserted tags as single tokens (`Mark`) beside the text's characters (`Ch`)
 * and renders the token sequence into a string at the end. Because escaped text
 * holds no `<`, looking for "<li>" or "<ol>" in the string is the same as
 * looking for the token, and because no tag contains a digit, `-`, `*`, a
 * backtick, whitespace or a line terminator, each later regular expression
 * sees the same characters around a tag as it does around the token.
 */
module Dashboard {
  import opened Base
  import opened Quotes

  // ---------------------------------------------------------------------------
  // Escaping (dashboard.js:259-262)

  /** `s.replace(/c/g, by)` for a single character c. */
  function ReplaceChar(s: string, c: char, repl: string): (r: string)
    ensures forall d :: d !in s && d !in repl ==> d !in r
    ensures c !in repl ==> c !in r
  {
    if s == [] then [] else (if s[0] == c then repl else [s[0]]) + ReplaceChar(s[1..], c, repl)
  }

  /** Replacing a character the text does not hold changes nothing. */
  lemma {:induction false} ReplaceAbsent(s: string, c: char, repl: string)
    requires c !in s
    ensures ReplaceChar(s, c, repl) == s
  {
    if s != [] {
      assert s[0] != c;
      ReplaceAbsent(s[1..], c, repl);
      assert s == [s[0]] + s[1..];
    }
  }

  /** Replacing in a one-character string. */
  lemma ReplaceOne(d: char, c: char, repl: string)
    ensures ReplaceChar([d], c, repl) == if d == c then repl else [d]
  {
    assert [d][1..] == [];
  }

  lemma {:induction false} ReplaceCharAppend(a: string, b: string, c: char, repl: string)
    ensures ReplaceChar(a + b, c, repl) == ReplaceChar(a, c, repl) + ReplaceChar(b, c, repl)
  {
    if a != [] {
      assert (a + b)[0] == a[0];
      assert (a + b)[1..] == a[1..] + b;
      ReplaceCharAppend(a[1..], b, c, repl);
    } else {
      assert a + b == b;
    }
  }

  /** The three replacements, `&` first. */
  function Escape(s: string): (r: string)
    ensures '<' !in r && '>' !in r
  {
    ReplaceChar(ReplaceChar(ReplaceChar(s, '&', "&amp;"), '<', "&lt;"), '>', "&gt;")
  }

  /** The HTML escape of one character. */
  function EscapeChar(c: char): string
  {
    if c == '&' then "&amp;" else if c == '<' then "&lt;" else if c == '>' then "&gt;" else [c]
  }

  /** Escaping character by character, in one pass. */
  function EscapeEach(s: string): string
  {
    if s == [] then [] else EscapeChar(s[0]) + EscapeEach(s[1..])
  }

  /** Escaping a single character gives its HTML escape. */
  lemma EscapeOne(c: char)
    ensures Escape([c]) == EscapeChar(c)
  {
    var a1 := ReplaceChar([c], '&', "&amp;");
    var a2 := ReplaceChar(a1, '<', "&lt;");
    ReplaceOne(c, '&', "&amp;");
    if c == '&' {
      assert a1 == "&amp;" && '<' !in a1 && '>' !in a1;
      ReplaceAbsent(a1, '<', "&lt;");
      ReplaceAbsent(a1, '>', "&gt;");
    } else {
      ReplaceOne(c, '<', "&lt;");
      if c == '<' {
        assert a2 == "&lt;" && '>' !in a2;
        ReplaceAbsent(a2, '>', "&gt;");
      } else {
        ReplaceOne(c, '>', "&gt;");
      }
    }
  }

  /** Escaping a concatenation escapes each part. */
  lemma EscapeAppend(a: string, b: string)
    ensures Escape(a + b) == Escape(a) + Escape(b)
  {
    ReplaceCharAppend(a, b, '&', "&amp;");
    var a1 := ReplaceChar(a, '&', "&amp;");
    var b1 := ReplaceChar(b, '&', "&amp;");
    ReplaceCharAppend(a1, b1, '<', "&lt;");
    ReplaceCharAppend(ReplaceChar(a1, '<', "&lt;"), ReplaceChar(b1, '<', "&lt;"), '>', "&gt;");
  }

  /** Because `&` is replaced first, the three successive replacements escape
      each character of the text independently: no `&` of an inserted `&lt;` or
      `&gt;` is escaped again. */
  lemma {:induction false} EscapeIsPerChar(s: string)
    ensures Escape(s) == EscapeEach(s)
  {
    if s != [] {
      assert s == [s[0]] + s[1..];
      EscapeAppend([s[0]], s[1..]);
      EscapeOne(s[0]);
      EscapeIsPerChar(s[1..]);
    }
  }

  /** What a browser shows for the escaped text: `&amp;`, `&lt;` and `&gt;`
      read back as the characters they stand for. */
  function Unescape(s: string): string
  {
    if s == [] then []
    else if StartsWith(s, "&amp;") then "&" + Unescape(s[5..])
    else if StartsWith(s, "&lt;") then "<" + Unescape(s[4..])
    else if StartsWith(s, "&gt;") then ">" + Unescape(s[4..])
    else [s[0]] + Unescape(s[1..])
  }

  lemma {:induction false} UnescapeEach(s: string)
    ensures Unescape(EscapeEach(s)) == s
  {
    if s != [] {
      var c := s[0];
      var rest := EscapeEach(s[1..]);
      var e := EscapeChar(c) + rest;
      assert EscapeEach(s) == e;
      if c == '&' {
        assert StartsWith(e, "&amp;") && e[5..] == rest;
      } else if c == '<' {
        assert |e| >= 5 ==> e[..5][1] == e[1] == 'l';
        assert StartsWith(e, "&lt;") && e[4..] == rest;
      } else if c == '>' {
        assert |e| >= 5 ==> e[..5][1] == e[1] == 'g';
        assert e[..4][1] == e[1];
        assert StartsWith(e, "&gt;") && e[4..] == rest;
      } else {
        assert e[0] == c && e[1..] == rest;
        assert |e| >= 4 ==> e[..4][0] == c;
        assert |e| >= 5 ==> e[..5][0] == c;
      }
      UnescapeEach(s[1..]);
    }
  }

  /** Escaping loses nothing: the reader sees exactly the text the model sent. */
  lemma EscapeRoundTrip(s: string)
    ensures Unescape(Escape(s)) == s
  {
    EscapeIsPerChar(s);
    UnescapeEach(s);
  }

  // ---------------------------------------------------------------------------
  // Marked-up text

  datatype TagName = Ol | Ul | Li | Br | Strong | Em | Pre | Code
  datatype Tag = Open(name: TagName) | Close(name: TagName)

  /** A character of the text, or a tag the formatter inserted. */
  datatype Token = Ch(c: char) | Mark(tag: Tag)

  function NameText(n: TagName): (r: string)
    ensures r != [] && forall i :: 0 <= i < |r| ==> 'a' <= r[i] <= 'z'
  {
    match n
    case Ol => "ol"
    case Ul => "ul"
    case Li => "li"
    case Br => "br"
    case Strong => "strong"
    case Em => "em"
    case Pre => "pre"
    case Code => "code"
  }

  /** `<name>` or `</name>`. */
  function TagText(t: Tag): (r: string)
    ensures |r| >= 3 && r[0] == '<' && r[|r| - 1] == '>'
    ensures forall i :: 0 < i < |r| ==> r[i] != '<' && r[i] != '\n'
  {
    "<" + (if t.Close? then "/" else "") + NameText(t.name) + ">"
  }

  function Piece(t: Token): string
  {
    match t
    case Ch(c) => [c]
    case Mark(tag) => TagText(tag)
  }

  /** The string the marked-up text stands for. */
  function Render(ts: seq<Token>): string
  {
    if ts == [] then [] else Piece(ts[0]) + Render(ts[1..])
  }

  /** The text as tokens, one character each: it renders back to the text. */
  function Lift(s: string): (ts: seq<Token>)
    ensures Render(ts) == s
    ensures |ts| == |s| && forall t :: Mark(t) !in ts
    ensures forall i :: 0 <= i < |s| ==> ts[i] == Ch(s[i])
  {
    if s == [] then []
    else
      var ts := [Ch(s[0])] + Lift(s[1..]);
      assert ts[1..] == Lift(s[1..]);
      ts
  }

  /** Every `<` of `s` starts an inserted tag. */
  ghost predicate TagsOnly(s: string)
  {
    forall i :: 0 <= i < |s| && s[i] == '<' ==> exists t :: OccursAt(s, i, TagText(t))
  }

  lemma OccursInPrefix(p: string, q: string, i: nat, w: string)
    requires OccursAt(p, i, w)
    ensures OccursAt(p + q, i, w)
  {
    assert (p + q)[i..i + |w|] == p[i..i + |w|];
  }

  lemma OccursInSuffix(p: string, q: string, k: nat, w: string)
    requires OccursAt(q, k, w)
    ensures OccursAt(p + q, |p| + k, w)
  {
    assert (p + q)[|p| + k..|p| + k + |w|] == q[k..k + |w|];
  }

  lemma TagsOnlyConcat(p: string, q: string)
    requires TagsOnly(p) && TagsOnly(q)
    ensures TagsOnly(p + q)
  {
    forall i | 0 <= i < |p + q| && (p + q)[i] == '<'
      ensures exists t :: OccursAt(p + q, i, TagText(t))
    {
      if i < |p| {
        assert p[i] == '<';
        var t :| OccursAt(p, i, TagText(t));
        OccursInPrefix(p, q, i, TagText(t));
      } else {
        assert q[i - |p|] == '<';
        var t :| OccursAt(q, i - |p|, TagText(t));
        OccursInSuffix(p, q, i - |p|, TagText(t));
      }
    }
  }

  lemma PieceTagsOnly(x: Token)
    requires x != Ch('<')
    ensures TagsOnly(Piece(x))
  {
    var p := Piece(x);
    forall i | 0 <= i < |p| && p[i] == '<'
      ensures exists t :: OccursAt(p, i, TagText(t))
    {
      assert x.Mark? && i == 0;
      assert p[0..|TagText(x.tag)|] == TagText(x.tag);
      assert OccursAt(p, i, TagText(x.tag));
    }
  }

  /** If the text holds no `<`, every `<` of the rendering starts an inserted tag. */
  lemma {:induction false} RenderTagsOnly(ts: seq<Token>)
    requires Ch('<') !in ts
    ensures TagsOnly(Render(ts))
  {
    if ts != [] {
      assert ts[0] in ts;
      PieceTagsOnly(ts[0]);
      RenderTagsOnly(ts[1..]);
      TagsOnlyConcat(Piece(ts[0]), Render(ts[1..]));
    }
  }

  /** If the text holds no line feed, neither does its rendering. */
  lemma {:induction false} RenderNoNewline(ts: seq<Token>)
    requires Ch('\n') !in ts
    ensures '\n' !in Render(ts)
  {
    if ts != [] {
      assert ts[0] in ts;
      RenderNoNewline(ts[1..]);
      var p := Piece(ts[0]);
      assert '\n' !in p by {
        if ts[0].Mark? {
          assert TagText(ts[0].tag)[0] == '<';
        }
      }
    }
  }

  // ---------------------------------------------------------------------------
  // Lines and list items (dashboard.js:265-276)

  /** A line terminator of JavaScript regular expressions. */
  predicate IsTerminator(c: char)
  {
    c == '\n' || c == '\r' || c == '\U{2028}' || c == '\U{2029}'
  }

  /** `\s` of JavaScript regular expressions. */
  predicate IsSpace(c: char)
  {
    c == '\t' || c == '\n' || c == '\U{000B}' || c == '\U{000C}' || c == '\r' || c == ' '
    || c == '\U{00A0}' || c == '\U{1680}' || ('\U{2000}' <= c <= '\U{200A}')
    || c == '\U{2028}' || c == '\U{2029}' || c == '\U{202F}' || c == '\U{205F}'
    || c == '\U{3000}' || c == '\U{FEFF}'
  }

  predicate IsTerminatorToken(t: Token)
  {
    t.Ch? && IsTerminator(t.c)
  }

  /** How many tokens of the first line come before its terminator (or the end). */
  function LineLength(ts: seq<Token>): (e: nat)
    ensures e <= |ts|
    ensures e < |ts| ==> IsTerminatorToken(ts[e])
    ensures forall j :: 0 <= j < e ==> !IsTerminatorToken(ts[j])
  {
    if ts == [] || IsTerminatorToken(ts[0]) then 0 else 1 + LineLength(ts[1..])
  }

  /** How many tokens at the start are characters satisfying `\s` (or `\d`). */
  function SpaceRun(ts: seq<Token>): (w: nat)
    ensures w <= |ts|
    ensures forall j :: 0 <= j < w ==> ts[j].Ch? && IsSpace(ts[j].c)
    ensures w < |ts| ==> !(ts[w].Ch? && IsSpace(ts[w].c))
  {
    if ts != [] && ts[0].Ch? && IsSpace(ts[0].c) then 1 + SpaceRun(ts[1..]) else 0
  }

  function DigitRun(ts: seq<Token>): (w: nat)
    ensures w <= |ts|
    ensures forall j :: 0 <= j < w ==> ts[j].Ch? && IsDigit(ts[j].c)
    ensures w < |ts| ==> !(ts[w].Ch? && IsDigit(ts[w].c))
  {
    if ts != [] && ts[0].Ch? && IsDigit(ts[0].c) then 1 + DigitRun(ts[1..]) else 0
  }

  /** Every line terminator is also matched by `\s`. */
  lemma TerminatorIsSpace(t: Token)
    ensures IsTerminatorToken(t) ==> t.Ch? && IsSpace(t.c)
  {
  }

  /** The length of the `\s+` that the backtracking engine keeps in `\s+(.+)$`
      at the start of `rest`: it takes the longest run of `\s` (which may cross
      line terminators) and gives characters back until `(.+)` can start on a
      character that is not a line terminator, at least one being kept. The
      positions are tried from `k` down. */
  function Backtrack(rest: seq<Token>, k: nat): (w: Option<nat>)
    requires k < |rest|
    ensures w.Some? ==> 1 <= w.value <= k && !IsTerminatorToken(rest[w.value])
    ensures w.Some? ==> forall j :: w.value < j <= k ==> IsTerminatorToken(rest[j])
    ensures w.None? ==> forall j :: 1 <= j <= k ==> IsTerminatorToken(rest[j])
  {
    if k == 0 then None
    else if !IsTerminatorToken(rest[k]) then Some(k)
    else Backtrack(rest, k - 1)
  }

  /** How many tokens `\s+` consumes before `(.+)$`, when a match exists: the
      largest j no longer than the run of `\s` such that `(.+)` can start at j. */
  function SpaceMatch(rest: seq<Token>): (w: Option<nat>)
    ensures w.Some? ==> 1 <= w.value <= SpaceRun(rest) && w.value < |rest| && !IsTerminatorToken(rest[w.value])
    ensures w.Some? ==> forall j :: w.value < j <= SpaceRun(rest) ==> j == |rest| || IsTerminatorToken(rest[j])
    ensures w.None? ==> forall j :: 1 <= j <= SpaceRun(rest) ==> j == |rest| || IsTerminatorToken(rest[j])
  {
    var run := SpaceRun(rest);
    if run == 0 then None
    else if run < |rest| then
      TerminatorIsSpace(rest[run]);
      Some(run)
    else Backtrack(rest, run - 1)
  }

  datatype ListKind = Numbered | Bullet

  /** The length of the list marker at the start of `ts` that `^(\d+)\.`
      (Numbered) or `^[-•]` (Bullet) matches, if any. */
  function MarkerLength(ts: seq<Token>, kind: ListKind): (n: Option<nat>)
    ensures n.Some? ==> 1 <= n.value <= |ts|
    ensures n.Some? && kind == Numbered ==>
              && n.value >= 2 && ts[n.value - 1] == Ch('.')
              && forall j :: 0 <= j < n.value - 1 ==> ts[j].Ch? && IsDigit(ts[j].c)
    ensures n.Some? && kind == Bullet ==> n.value == 1 && (ts[0] == Ch('-') || ts[0] == Ch('\U{2022}'))
  {
    match kind
    case Numbered =>
      var d := DigitRun(ts);
      if d == 0 || d >= |ts| || ts[d] != Ch('.') then None else Some(d + 1)
    case Bullet =>
      if ts != [] && (ts[0] == Ch('-') || ts[0] == Ch('\U{2022}')) then Some(1) else None
  }

  /** A match of the item pattern at the start of `ts` (a line start): the
      bounds [start, end) of the captured item text, which is also where the
      whole match ends. */
  function ItemMatch(ts: seq<Token>, kind: ListKind): (m: Option<(nat, nat)>)
    ensures m.Some? ==> 2 <= m.value.0 < m.value.1 <= |ts|
    ensures MarkerLength(ts, kind).None? ==> m.None?
  {
    match MarkerLength(ts, kind)
    case None => None
    case Some(n) =>
      match SpaceMatch(ts[n..])
      case None => None
      case Some(w) =>
        assert ts[n..][w..] == ts[n + w..];
        Some((n + w, n + w + LineLength(ts[n + w..])))
  }

  lemma SpacesBefore(ts: seq<Token>, n: nat, w: nat)
    requires n <= |ts| && w <= SpaceRun(ts[n..])
    ensures forall j :: n <= j < n + w ==> ts[j].Ch? && IsSpace(ts[j].c)
  {
    var rest := ts[n..];
    forall j | n <= j < n + w ensures ts[j].Ch? && IsSpace(ts[j].c) {
      assert ts[j] == rest[j - n];
    }
  }

  lemma LineFrom(ts: seq<Token>, start: nat)
    requires start <= |ts|
    ensures var end := start + LineLength(ts[start..]);
            && end <= |ts|
            && (forall j :: start <= j < end ==> !IsTerminatorToken(ts[j]))
            && (end == |ts| || IsTerminatorToken(ts[end]))
  {
    var line := ts[start..];
    var len := LineLength(line);
    forall j | start <= j < start + len ensures !IsTerminatorToken(ts[j]) {
      assert ts[j] == line[j - start];
    }
    if start + len < |ts| {
      assert ts[start + len] == line[len];
    }
  }

  lemma NoLaterStart(ts: seq<Token>, n: nat, w: nat)
    requires n <= |ts|
    requires forall j :: w < j <= SpaceRun(ts[n..]) ==> j == |ts[n..]| || IsTerminatorToken(ts[n..][j])
    ensures forall j :: n + w < j <= n + SpaceRun(ts[n..]) ==> j == |ts| || IsTerminatorToken(ts[j])
  {
    var rest := ts[n..];
    forall j | n + w < j <= n + SpaceRun(rest) ensures j == |ts| || IsTerminatorToken(ts[j]) {
      assert j - n == |rest| || IsTerminatorToken(rest[j - n]);
    }
  }

  /** What the engine matches: the marker (n tokens), then a run of `\s`
      (terminators included) as long as it can be while `(.+)` still starts on
      a character that is not a line terminator, then the captured text
      [start, end), which holds no line terminator and reaches the end of its
      line (`$`). */
  lemma ItemMatchIsRegexMatch(ts: seq<Token>, kind: ListKind, n: nat, start: nat, end: nat)
    requires MarkerLength(ts, kind) == Some(n)
    requires ItemMatch(ts, kind) == Some((start, end))
    ensures n < start <= n + SpaceRun(ts[n..])
    ensures forall j :: n <= j < start ==> ts[j].Ch? && IsSpace(ts[j].c)
    ensures forall j :: start <= j < end ==> !IsTerminatorToken(ts[j])
    ensures end == |ts| || IsTerminatorToken(ts[end])
    ensures forall j :: start < j <= n + SpaceRun(ts[n..]) ==> j == |ts| || IsTerminatorToken(ts[j])
  {
    var w := SpaceMatch(ts[n..]).value;
    assert start == n + w;
    SpacesBefore(ts, n, w);
    LineFrom(ts, start);
    NoLaterStart(ts, n, w);
  }

  /** With no such split there is no match: every position the `\s` run could
      give back to is the end of the text or a line terminator. */
  lemma NoItemMatch(ts: seq<Token>, kind: ListKind, n: nat)
    requires MarkerLength(ts, kind) == Some(n)
    requires ItemMatch(ts, kind).None?
    ensures forall j :: n < j <= n + SpaceRun(ts[n..]) ==> j == |ts| || IsTerminatorToken(ts[j])
  {
    NoLaterStart(ts, n, 0);
  }

  /** `.replace(pattern, '<li>$k</li>')` with the `g` and `m` flags, scanning
      from the start: a match may begin only at a line start (`lineStart`); a
      match is replaced by its item and the scan resumes where it ended, which
      is not a line start; elsewhere the token is kept. Because `\s` matches
      line terminators, a match may consume the terminators after its marker
      and take its item from a later line. */
  function RewriteFrom(ts: seq<Token>, kind: ListKind, lineStart: bool): (r: seq<Token>)
    decreases |ts|
    ensures forall x :: x in r && (x.Ch? || x.tag.name != Li) ==> x in ts
  {
    if ts == [] then []
    else if lineStart && ItemMatch(ts, kind).Some? then
      var (start, end) := ItemMatch(ts, kind).value;
      var rest := RewriteFrom(ts[end..], kind, false);
      assert forall x :: x in ts[start..end] ==> x in ts;
      assert forall x :: x in rest && (x.Ch? || x.tag.name != Li) ==> x in ts;
      [Mark(Open(Li))] + ts[start..end] + [Mark(Close(Li))] + rest
    else
      [ts[0]] + RewriteFrom(ts[1..], kind, IsTerminatorToken(ts[0]))
  }

  function RewriteLines(ts: seq<Token>, kind: ListKind): (r: seq<Token>)
    ensures forall x :: x in r && (x.Ch? || x.tag.name != Li) ==> x in ts
  {
    RewriteFrom(ts, kind, true)
  }

  /** Position i of `ts` starts a line: it is the start of the scan and the scan
      began at a line start, or it follows a line terminator. */
  predicate LineStartAt(ts: seq<Token>, i: nat, lineStart: bool)
    requires i <= |ts|
  {
    (i == 0 && lineStart) || (0 < i && IsTerminatorToken(ts[i - 1]))
  }

  /** No line start of `ts` before position `upTo` begins a list item. */
  predicate NoItemBefore(ts: seq<Token>, upTo: nat, kind: ListKind, lineStart: bool)
    requires upTo <= |ts|
  {
    forall i :: 0 <= i < upTo && LineStartAt(ts, i, lineStart) ==> ItemMatch(ts[i..], kind).None?
  }

  /** No line of `ts` begins a list item. */
  predicate NoItemAt(ts: seq<Token>, kind: ListKind, lineStart: bool)
  {
    NoItemBefore(ts, |ts|, kind, lineStart)
  }

  /** Lines that begin no item pass through the replacement unchanged: the scan
      of `a + b` keeps `a` as it is and goes on with `b`, at a line start exactly
      when `a` ends with a terminator (or is empty and the scan began at one). */
  lemma {:induction false} RewriteKeepsPrefix(a: seq<Token>, b: seq<Token>, kind: ListKind, lineStart: bool)
    requires NoItemBefore(a + b, |a|, kind, lineStart)
    ensures RewriteFrom(a + b, kind, lineStart) == a + RewriteFrom(b, kind, StateAfter(a, lineStart))
    decreases |a|
  {
    if a == [] {
      assert a + b == b;
    } else {
      var next := IsTerminatorToken(a[0]);
      NoItemBeforeTail(a, b, kind, lineStart);
      RewriteKeepsPrefix(a[1..], b, kind, next);
      StateAfterTail(a, lineStart);
      KeptHeadStep(a, b, kind, lineStart, RewriteFrom(b, kind, StateAfter(a, lineStart)));
    }
  }

  /** Whether the scan is at a line start after passing over `a`. */
  function StateAfter(a: seq<Token>, lineStart: bool): bool
  {
    if a == [] then lineStart else IsTerminatorToken(a[|a| - 1])
  }

  lemma StateAfterTail(a: seq<Token>, lineStart: bool)
    requires a != []
    ensures StateAfter(a[1..], IsTerminatorToken(a[0])) == StateAfter(a, lineStart)
  {
    if a[1..] != [] {
      assert a[1..][|a[1..]| - 1] == a[|a| - 1];
    }
  }

  lemma KeptHeadStep(a: seq<Token>, b: seq<Token>, kind: ListKind, lineStart: bool, x: seq<Token>)
    requires a != [] && (lineStart ==> ItemMatch(a + b, kind).None?)
    requires RewriteFrom(a[1..] + b, kind, IsTerminatorToken(a[0])) == a[1..] + x
    ensures RewriteFrom(a + b, kind, lineStart) == a + x
  {
    RewriteKeptHead(a + b, kind, lineStart);
    assert (a + b)[0] == a[0];
    assert (a + b)[1..] == a[1..] + b;
    assert a == [a[0]] + a[1..];
  }

  /** One step of the scan where no item begins at the first token. */
  lemma RewriteKeptHead(ts: seq<Token>, kind: ListKind, lineStart: bool)
    requires ts != [] && (lineStart ==> ItemMatch(ts, kind).None?)
    ensures RewriteFrom(ts, kind, lineStart) == [ts[0]] + RewriteFrom(ts[1..], kind, IsTerminatorToken(ts[0]))
  {
  }

  /** The tail of `a` inherits the absence of items from `a`. */
  lemma NoItemBeforeTail(a: seq<Token>, b: seq<Token>, kind: ListKind, lineStart: bool)
    requires a != [] && NoItemBefore(a + b, |a|, kind, lineStart)
    ensures lineStart ==> ItemMatch(a + b, kind).None?
    ensures NoItemBefore(a[1..] + b, |a| - 1, kind, IsTerminatorToken(a[0]))
  {
    var ts := a + b;
    var next := IsTerminatorToken(a[0]);
    assert ts[0..] == ts;
    assert lineStart ==> LineStartAt(ts, 0, lineStart);
    forall i | 0 <= i < |a| - 1 && LineStartAt(a[1..] + b, i, next)
      ensures ItemMatch((a[1..] + b)[i..], kind).None?
    {
      assert LineStartAt(ts, i + 1, lineStart);
      assert ts[i + 1..] == (a[1..] + b)[i..];
    }
  }

  /** A text none of whose lines begins a list item is left unchanged. */
  lemma RewriteNoItem(ts: seq<Token>, kind: ListKind, lineStart: bool)
    requires NoItemAt(ts, kind, lineStart)
    ensures RewriteFrom(ts, kind, lineStart) == ts
  {
    assert ts + [] == ts;
    RewriteKeepsPrefix(ts, [], kind, lineStart);
  }

  /** A line the item pattern can capture whole: not empty, no line
      terminator, and not starting with `\s`. */
  predicate ItemLine(line: seq<Token>)
  {
    line != [] && !(line[0].Ch? && IsSpace(line[0].c))
    && NoTerminator(line)
  }

  /** "1. foo", and "1.\nfoo" alike: after a one-digit marker and one `\s`
      character, which may be a line terminator, the item is the line that
      follows; the `\s` character is consumed. */
  lemma ItemAfterSpace(d: char, sp: char, line: seq<Token>)
    requires IsDigit(d) && IsSpace(sp) && ItemLine(line)
    ensures RewriteLines([Ch(d), Ch('.'), Ch(sp)] + line, Numbered) == [Mark(Open(Li))] + line + [Mark(Close(Li))]
  {
    var ts := [Ch(d), Ch('.'), Ch(sp)] + line;
    assert ts[1..][0] == Ch('.');
    assert DigitRun(ts) == 1;
    assert MarkerLength(ts, Numbered) == Some(2);
    var rest := ts[2..];
    assert rest[1..] == line;
    assert SpaceRun(rest) == 1;
    assert ts[3..] == line;
    ItemRewrite(ts, Numbered, 2, 1, |line|);
  }

  /** "1.\nfoo" and the like: the `\s+` after the marker crosses the line
      feed, so the item is taken from the next line and the line feed is
      consumed. */
  lemma ItemAcrossLineFeed(d: char, line: seq<Token>)
    requires IsDigit(d) && ItemLine(line)
    ensures RewriteLines([Ch(d), Ch('.'), Ch('\n')] + line, Numbered) == [Mark(Open(Li))] + line + [Mark(Close(Li))]
  {
    ItemAfterSpace(d, '\n', line);
  }

  /** "- \n- b" and the like: the item of the first marker is the whole next
      line, even when that line starts with a marker of its own. */
  lemma BulletAcrossLineFeed(line: seq<Token>)
    requires ItemLine(line)
    ensures RewriteLines([Ch('-'), Ch(' '), Ch('\n')] + line, Bullet) == [Mark(Open(Li))] + line + [Mark(Close(Li))]
  {
    var ts := [Ch('-'), Ch(' '), Ch('\n')] + line;
    assert MarkerLength(ts, Bullet) == Some(1);
    var rest := ts[1..];
    assert rest[1..][1..] == line;
    assert SpaceRun(rest[1..]) == 1;
    assert SpaceRun(rest) == 2;
    assert ts[3..] == line;
    ItemRewrite(ts, Bullet, 1, 2, |line|);
  }

  /** A text that is one match from its start to its end is rewritten to
      exactly that item. */
  lemma ItemRewrite(ts: seq<Token>, kind: ListKind, n: nat, w: nat, len: nat)
    requires MarkerLength(ts, kind) == Some(n) && n <= |ts|
    requires SpaceMatch(ts[n..]) == Some(w) && n + w <= |ts|
    requires LineLength(ts[n + w..]) == len && n + w + len == |ts|
    ensures RewriteLines(ts, kind) == [Mark(Open(Li))] + ts[n + w..] + [Mark(Close(Li))]
  {
    ItemToEnd(ts, kind, n, w, len);
    RewriteAtMatch(ts, kind, n + w, |ts|);
    assert ts[n + w..|ts|] == ts[n + w..];
    assert ts[|ts|..] == [];
  }

  /** One step of the scan at a line start where an item matches. */
  lemma RewriteAtMatch(ts: seq<Token>, kind: ListKind, start: nat, end: nat)
    requires ItemMatch(ts, kind).Some? && ItemMatch(ts, kind).value.0 == start
    requires ItemMatch(ts, kind).value.1 == end
    ensures start <= end <= |ts|
    ensures RewriteFrom(ts, kind, true)
              == [Mark(Open(Li))] + ts[start..end] + [Mark(Close(Li))] + RewriteFrom(ts[end..], kind, false)
  {
  }

  lemma ItemToEnd(ts: seq<Token>, kind: ListKind, n: nat, w: nat, len: nat)
    requires MarkerLength(ts, kind) == Some(n) && n <= |ts|
    requires SpaceMatch(ts[n..]) == Some(w) && n + w <= |ts|
    requires LineLength(ts[n + w..]) == len && n + w + len == |ts|
    ensures ItemMatch(ts, kind).Some? && ItemMatch(ts, kind).value.0 == n + w
    ensures ItemMatch(ts, kind).value.1 == |ts|
  {
    assert ts[n..][w..] == ts[n + w..];
  }

  /** "1. \n " at the end of the text: the `\s` run reaches the end, so the
      engine gives back the last space for `(.+)`; the line feed is consumed. */
  lemma ItemBacktracksAtEnd(d: char)
    requires IsDigit(d)
    ensures RewriteLines([Ch(d), Ch('.'), Ch(' '), Ch('\n'), Ch(' ')], Numbered) == [Mark(Open(Li)), Ch(' '), Mark(Close(Li))]
  {
    var ts := [Ch(d), Ch('.'), Ch(' '), Ch('\n'), Ch(' ')];
    assert ts[1..][0] == Ch('.');
    assert DigitRun(ts) == 1;
    assert MarkerLength(ts, Numbered) == Some(2);
    var rest := ts[2..];
    assert rest[1..][1..][1..] == [];
    assert SpaceRun(rest) == 3;
    assert Backtrack(rest, 2) == Some(2);
    assert ts[4..] == [Ch(' ')];
    assert ts[4..][1..] == [];
    ItemRewrite(ts, Numbered, 2, 2, 1);
  }


  /** `.replace(/<\/n>\s*<n>/g, '')`: removes a closing tag that is followed,
      after optional whitespace, by the same opening tag. */
  function DropSeams(ts: seq<Token>, n: TagName): seq<Token>
    decreases |ts|
  {
    if ts == [] then []
    else if ts[0] == Mark(Close(n)) && 1 + SpaceRun(ts[1..]) < |ts| && ts[1 + SpaceRun(ts[1..])] == Mark(Open(n))
    then DropSeams(ts[2 + SpaceRun(ts[1..])..], n)
    else [ts[0]] + DropSeams(ts[1..], n)
  }

  /** With no opening tag after the first token there is no seam to drop. */
  lemma {:induction false} DropSeamsNone(ts: seq<Token>, n: TagName)
    requires forall i :: 1 <= i < |ts| ==> ts[i] != Mark(Open(n))
    ensures DropSeams(ts, n) == ts
  {
    if ts != [] {
      if ts[0] == Mark(Close(n)) && 1 + SpaceRun(ts[1..]) < |ts| {
        assert ts[1..][SpaceRun(ts[1..])] == ts[1 + SpaceRun(ts[1..])];
      }
      if |ts| > 1 {
        assert ts[1..][1..] == ts[2..];
      }
      DropSeamsNone(ts[1..], n);
      assert ts == [ts[0]] + ts[1..];
    }
  }

  function Wrap(ts: seq<Token>, n: TagName): seq<Token>
  {
    [Mark(Open(n))] + ts + [Mark(Close(n))]
  }

  /** Wrapping a text that holds no opening tag `n` leaves no seam to drop. */
  lemma WrapOnce(ts: seq<Token>, n: TagName)
    requires Mark(Open(n)) !in ts
    ensures DropSeams(Wrap(ts, n), n) == Wrap(ts, n)
  {
    var w := Wrap(ts, n);
    forall i | 1 <= i < |w| ensures w[i] != Mark(Open(n)) {
      if i <= |ts| {
        assert w[i] == ts[i - 1];
      }
    }
    DropSeamsNone(w, n);
  }

  /** The numbered-list step: items, then one `<ol>…</ol>` around the whole text
      when any item was made. The seam removal that follows finds nothing, so the
      text is wrapped exactly once. */
  function NumberedStep(ts: seq<Token>): (r: seq<Token>)
    requires Mark(Open(Ol)) !in ts
    ensures Mark(Open(Li)) in RewriteLines(ts, Numbered) ==> r == Wrap(RewriteLines(ts, Numbered), Ol)
    ensures Mark(Open(Li)) !in RewriteLines(ts, Numbered) ==> r == RewriteLines(ts, Numbered)
    ensures forall x :: x in r && (x.Ch? || (x.tag.name != Li && x.tag.name != Ol)) ==> x in ts
  {
    var t := RewriteLines(ts, Numbered);
    if Mark(Open(Li)) in t then
      WrapOnce(t, Ol);
      DropSeams(Wrap(t, Ol), Ol)
    else t
  }

  /** The bullet step: items, then `<ul>…</ul>` around the whole text only when
      an item is present and no `<ol>` is; again the seam removal finds nothing. */
  function BulletStep(ts: seq<Token>): (r: seq<Token>)
    requires Mark(Open(Ul)) !in ts
    ensures Mark(Open(Li)) in RewriteLines(ts, Bullet) && Mark(Open(Ol)) !in RewriteLines(ts, Bullet) ==>
              r == Wrap(RewriteLines(ts, Bullet), Ul)
    ensures Mark(Open(Li)) !in RewriteLines(ts, Bullet) || Mark(Open(Ol)) in RewriteLines(ts, Bullet) ==>
              r == RewriteLines(ts, Bullet)
    ensures forall x :: x in r && (x.Ch? || (x.tag.name != Li && x.tag.name != Ul)) ==> x in ts
  {
    var t := RewriteLines(ts, Bullet);
    if Mark(Open(Li)) in t && Mark(Open(Ol)) !in t then
      assert Mark(Open(Ul)) !in t;
      WrapOnce(t, Ul);
      DropSeams(Wrap(t, Ul), Ul)
    else t
  }

  // ---------------------------------------------------------------------------
  // Line breaks and inline markup (dashboard.js:279-289)

  /** `.replace(/\n/g, '<br>')`. */
  function Breaks(ts: seq<Token>): (r: seq<Token>)
    ensures Ch('\n') !in r
    ensures forall c :: Ch(c) in r ==> Ch(c) in ts
    ensures forall t :: Mark(t) in r ==> Mark(t) in ts || t == Open(Br)
  {
    if ts == [] then []
    else (if ts[0] == Ch('\n') then [Mark(Open(Br))] else [ts[0]]) + Breaks(ts[1..])
  }

  /** The rendering of a concatenation is the concatenation of the renderings. */
  lemma {:induction false} RenderAppend(a: seq<Token>, b: seq<Token>)
    ensures Render(a + b) == Render(a) + Render(b)
  {
    if a == [] {
      assert a + b == b;
    } else {
      assert (a + b)[1..] == a[1..] + b;
      RenderAppend(a[1..], b);
    }
  }

  /** The line-break step is exactly `replace(/\n/g, '<br>')` on the rendered
      text: each line feed becomes `<br>` where it stood, and everything else,
      inserted tags included, is kept. */
  lemma {:induction false} BreaksIsReplace(ts: seq<Token>)
    ensures Render(Breaks(ts)) == ReplaceChar(Render(ts), '\n', "<br>")
  {
    if ts != [] {
      var head := if ts[0] == Ch('\n') then [Mark(Open(Br))] else [ts[0]];
      RenderAppend(head, Breaks(ts[1..]));
      BreaksIsReplace(ts[1..]);
      ReplaceCharAppend(Piece(ts[0]), Render(ts[1..]), '\n', "<br>");
      assert Render(head) == Piece(head[0]);
      match ts[0]
      case Ch(c) =>
        ReplaceOne(c, '\n', "<br>");
      case Mark(t) =>
        assert TagText(t)[0] == '<';
        assert '\n' !in TagText(t);
        ReplaceAbsent(TagText(t), '\n', "<br>");
    }
  }

  /** The delimiter `d` starts at position i. */
  predicate DelimAt(ts: seq<Token>, i: nat, d: string)
  {
    i + |d| <= |ts| && forall j :: 0 <= j < |d| ==> ts[i + j] == Ch(d[j])
  }

  /** The first position at or after `from` where `d` starts. */
  function FirstDelim(ts: seq<Token>, d: string, from: nat): (k: Option<nat>)
    decreases |ts| - from
    ensures k.Some? ==> from <= k.value && DelimAt(ts, k.value, d)
    ensures k.Some? ==> forall j :: from <= j < k.value ==> !DelimAt(ts, j, d)
    ensures k.None? ==> forall j :: from <= j ==> !DelimAt(ts, j, d)
  {
    if from + |d| > |ts| then None
    else if DelimAt(ts, from, d) then Some(from)
    else FirstDelim(ts, d, from + 1)
  }

  /** No token is a line terminator (what `.` demands of every character). */
  predicate NoTerminator(ts: seq<Token>)
  {
    forall j :: 0 <= j < |ts| ==> !IsTerminatorToken(ts[j])
  }

  /** Where the closing delimiter of a pair opening at the start of `ts` begins:
      the first delimiter after at least `minLen` tokens of content, provided
      the content holds no line terminator unless `anyChar`. */
  function PairEnd(ts: seq<Token>, d: string, minLen: nat, anyChar: bool): (k: Option<nat>)
    ensures k.Some? ==> |d| + minLen <= k.value && k.value + |d| <= |ts|
    ensures k.Some? ==> DelimAt(ts, 0, d) && DelimAt(ts, k.value, d)
  {
    if !DelimAt(ts, 0, d) then None
    else match FirstDelim(ts, d, |d| + minLen)
      case None => None
      case Some(k) => if anyChar || NoTerminator(ts[|d|..k]) then Some(k) else None
  }

  /** A lazy delimiter-pair replacement `.replace(/D(.+?)D/g, '<n>$1</n>')`,
      scanning left to right: at a delimiter, the content is the shortest run of
      at least `minLen` tokens followed by the delimiter again; with `anyChar`
      false (`.`) the content may not hold a line terminator, with `anyChar` true
      (`[\s\S]`) it may. Where no pair starts, the token is kept and the scan moves on. */
  function Inline(ts: seq<Token>, d: string, n: TagName, minLen: nat, anyChar: bool): (r: seq<Token>)
    requires d != []
    decreases |ts|
    ensures forall c :: Ch(c) in r ==> Ch(c) in ts
    ensures forall t :: Mark(t) in r ==> Mark(t) in ts || t.name == n
  {
    if ts == [] then []
    else match PairEnd(ts, d, minLen, anyChar)
      case None => [ts[0]] + Inline(ts[1..], d, n, minLen, anyChar)
      case Some(k) =>
        var content := ts[|d|..k];
        assert forall x :: x in content ==> x in ts;
        [Mark(Open(n))] + content + [Mark(Close(n))] + Inline(ts[k + |d|..], d, n, minLen, anyChar)
  }


  /** A text without the delimiter is left as it is. */
  lemma {:induction false} InlineNoDelim(ts: seq<Token>, d: string, n: TagName, minLen: nat, anyChar: bool)
    requires d != []
    requires forall j :: 0 <= j ==> !DelimAt(ts, j, d)
    ensures Inline(ts, d, n, minLen, anyChar) == ts
    decreases |ts|
  {
    if ts != [] {
      assert !DelimAt(ts, 0, d);
      forall j | 0 <= j ensures !DelimAt(ts[1..], j, d) {
        if DelimAt(ts[1..], j, d) {
          forall i | 0 <= i < |d| ensures ts[j + 1 + i] == Ch(d[i]) {
            assert ts[1..][j + i] == Ch(d[i]);
          }
          assert DelimAt(ts, j + 1, d);
        }
      }
      InlineNoDelim(ts[1..], d, n, minLen, anyChar);
      assert ts == [ts[0]] + ts[1..];
    }
  }

  /** The text with the inserted tags and the delimiter character `c` taken out. */
  function Plain(ts: seq<Token>, c: char): seq<Token>
  {
    if ts == [] then []
    else (if ts[0].Mark? || ts[0] == Ch(c) then [] else [ts[0]]) + Plain(ts[1..], c)
  }

  lemma {:induction false} PlainAppend(a: seq<Token>, b: seq<Token>, c: char)
    ensures Plain(a + b, c) == Plain(a, c) + Plain(b, c)
  {
    if a == [] {
      assert a + b == b;
    } else {
      assert (a + b)[1..] == a[1..] + b;
      PlainAppend(a[1..], b, c);
    }
  }

  /** A stretch made only of the delimiter character and tags leaves no text. */
  lemma {:induction false} PlainNone(ts: seq<Token>, c: char)
    requires forall i :: 0 <= i < |ts| ==> ts[i].Mark? || ts[i] == Ch(c)
    ensures Plain(ts, c) == []
  {
    if ts != [] {
      PlainNone(ts[1..], c);
    }
  }

  /** A delimiter made of one repeated character `c`. */
  predicate Repeats(d: string, c: char)
  {
    forall j :: 0 <= j < |d| ==> d[j] == c
  }

  lemma PlainDelim(ts: seq<Token>, i: nat, d: string, c: char)
    requires DelimAt(ts, i, d) && Repeats(d, c)
    ensures Plain(ts[i..i + |d|], c) == []
  {
    var w := ts[i..i + |d|];
    forall j | 0 <= j < |w| ensures w[j].Mark? || w[j] == Ch(c) {
      assert w[j] == ts[i + j] == Ch(d[j]);
    }
    PlainNone(w, c);
  }

  /** Around a delimiter pair at 0 and e, only the text between them is left. */
  lemma PlainOfPair(ts: seq<Token>, d: string, c: char, e: nat)
    requires Repeats(d, c) && |d| <= e && DelimAt(ts, 0, d) && DelimAt(ts, e, d)
    ensures Plain(ts, c) == Plain(ts[|d|..e], c) + Plain(ts[e + |d|..], c)
  {
    var content := ts[|d|..e];
    var rest := ts[e + |d|..];
    assert ts == ts[..|d|] + content + ts[e..e + |d|] + rest;
    PlainAppend(ts[..|d|] + content + ts[e..e + |d|], rest, c);
    PlainAppend(ts[..|d|] + content, ts[e..e + |d|], c);
    PlainAppend(ts[..|d|], content, c);
    PlainDelim(ts, 0, d, c);
    assert ts[0..|d|] == ts[..|d|];
    PlainDelim(ts, e, d, c);
  }

  lemma PlainMarkCons(t: Tag, x: seq<Token>, c: char)
    ensures Plain([Mark(t)] + x, c) == Plain(x, c)
  {
    assert ([Mark(t)] + x)[1..] == x;
  }

  /** The tag pair inserted around a content leaves only that content. */
  lemma PlainOfTagged(content: seq<Token>, n: TagName, rest: seq<Token>, c: char)
    ensures Plain([Mark(Open(n))] + content + [Mark(Close(n))] + rest, c) == Plain(content, c) + Plain(rest, c)
  {
    var tail := [Mark(Close(n))] + rest;
    assert [Mark(Open(n))] + content + [Mark(Close(n))] + rest == [Mark(Open(n))] + (content + tail);
    PlainMarkCons(Open(n), content + tail, c);
    PlainAppend(content, tail, c);
    PlainMarkCons(Close(n), rest, c);
  }


  /** The inline step loses and reorders no text: apart from the inserted tags and
      the delimiter character, its output is its input. */
  lemma {:induction false} InlineKeepsText(ts: seq<Token>, d: string, c: char, n: TagName, minLen: nat, anyChar: bool)
    requires d != [] && Repeats(d, c)
    ensures Plain(Inline(ts, d, n, minLen, anyChar), c) == Plain(ts, c)
    decreases |ts|
  {
    if ts != [] {
      match PairEnd(ts, d, minLen, anyChar)
      case Some(e) =>
        InlineAtPair(ts, d, n, minLen, anyChar, e);
        var rest := ts[e + |d|..];
        InlineKeepsText(rest, d, c, n, minLen, anyChar);
        PlainOfTaggedPair(ts, d, c, e, n, Inline(rest, d, n, minLen, anyChar));
      case None =>
        InlineAtHead(ts, d, n, minLen, anyChar);
        InlineKeepsText(ts[1..], d, c, n, minLen, anyChar);
        PlainOfHead(ts, c, Inline(ts[1..], d, n, minLen, anyChar));
    }
  }

  /** One step of `Inline` where a pair opens at the start. */
  lemma InlineAtPair(ts: seq<Token>, d: string, n: TagName, minLen: nat, anyChar: bool, e: nat)
    requires d != [] && ts != [] && PairEnd(ts, d, minLen, anyChar).Some?
    requires PairEnd(ts, d, minLen, anyChar).value == e
    ensures Inline(ts, d, n, minLen, anyChar)
              == [Mark(Open(n))] + ts[|d|..e] + [Mark(Close(n))] + Inline(ts[e + |d|..], d, n, minLen, anyChar)
  {
  }

  /** One step of `Inline` where no pair opens at the start. */
  lemma InlineAtHead(ts: seq<Token>, d: string, n: TagName, minLen: nat, anyChar: bool)
    requires d != [] && ts != [] && PairEnd(ts, d, minLen, anyChar).None?
    ensures Inline(ts, d, n, minLen, anyChar) == [ts[0]] + Inline(ts[1..], d, n, minLen, anyChar)
  {
  }

  lemma PlainOfTaggedPair(ts: seq<Token>, d: string, c: char, e: nat, n: TagName, x: seq<Token>)
    requires Repeats(d, c) && |d| <= e && e + |d| <= |ts| && DelimAt(ts, 0, d) && DelimAt(ts, e, d)
    requires Plain(x, c) == Plain(ts[e + |d|..], c)
    ensures Plain([Mark(Open(n))] + ts[|d|..e] + [Mark(Close(n))] + x, c) == Plain(ts, c)
  {
    PlainOfTagged(ts[|d|..e], n, x, c);
    PlainOfPair(ts, d, c, e);
  }

  lemma PlainOfHead(ts: seq<Token>, c: char, x: seq<Token>)
    requires ts != [] && Plain(x, c) == Plain(ts[1..], c)
    ensures Plain([ts[0]] + x, c) == Plain(ts, c)
  {
    PlainAppend([ts[0]], x, c);
    PlainAppend([ts[0]], ts[1..], c);
    assert ts == [ts[0]] + ts[1..];
  }

  /** A delimiter pair around text that holds neither the delimiter character
      nor a line terminator becomes the tag pair around that text; for `**`,
      "**x**" becomes `<strong>x</strong>`. */
  lemma InlinePair(d: string, c: char, content: seq<Token>, n: TagName, minLen: nat, anyChar: bool)
    requires d != [] && Repeats(d, c) && |content| >= minLen
    requires forall j :: 0 <= j < |content| ==> content[j] != Ch(c) && !IsTerminatorToken(content[j])
    ensures Inline(Lift(d) + content + Lift(d), d, n, minLen, anyChar)
              == [Mark(Open(n))] + content + [Mark(Close(n))]
  {
    var ts := Lift(d) + content + Lift(d);
    var e := |d| + |content|;
    PairEndAround(Lift(d), d, c, content, minLen, anyChar);
    InlineAtPair(ts, d, n, minLen, anyChar, e);
    assert ts[|d|..e] == content;
    assert ts[e + |d|..] == [];
  }

  /** `dt` is the delimiter `d` as character tokens. */
  predicate Spells(dt: seq<Token>, d: string)
  {
    |dt| == |d| && forall i :: 0 <= i < |d| ==> dt[i] == Ch(d[i])
  }

  /** Undoing the inline step: each inserted tag of name `n` back to the
      delimiter tokens `dt`. */
  function Restore(ts: seq<Token>, dt: seq<Token>, n: TagName): seq<Token>
  {
    if ts == [] then []
    else (if ts[0] == Mark(Open(n)) || ts[0] == Mark(Close(n)) then dt else [ts[0]]) + Restore(ts[1..], dt, n)
  }

  lemma {:induction false} RestoreAppend(a: seq<Token>, b: seq<Token>, dt: seq<Token>, n: TagName)
    ensures Restore(a + b, dt, n) == Restore(a, dt, n) + Restore(b, dt, n)
  {
    if a == [] {
      assert a + b == b;
    } else {
      assert (a + b)[1..] == a[1..] + b;
      RestoreAppend(a[1..], b, dt, n);
    }
  }

  lemma {:induction false} RestoreNone(ts: seq<Token>, dt: seq<Token>, n: TagName)
    requires Mark(Open(n)) !in ts && Mark(Close(n)) !in ts
    ensures Restore(ts, dt, n) == ts
  {
    if ts != [] {
      assert ts[0] in ts;
      assert forall x :: x in ts[1..] ==> x in ts;
      RestoreNone(ts[1..], dt, n);
      assert ts == [ts[0]] + ts[1..];
    }
  }

  /** The inline step is undone exactly by putting the delimiters back, when the
      text held no tag of its name before: an unpaired delimiter, every other
      character and every tag of an earlier step are kept in place. */
  lemma {:induction false} InlineRestores(ts: seq<Token>, dt: seq<Token>, d: string, n: TagName, minLen: nat, anyChar: bool)
    requires d != [] && Spells(dt, d)
    requires Mark(Open(n)) !in ts && Mark(Close(n)) !in ts
    ensures Restore(Inline(ts, d, n, minLen, anyChar), dt, n) == ts
    decreases |ts|
  {
    if ts != [] {
      match PairEnd(ts, d, minLen, anyChar)
      case Some(e) =>
        InlineAtPair(ts, d, n, minLen, anyChar, e);
        var rest := ts[e + |d|..];
        assert forall x :: x in rest ==> x in ts;
        InlineRestores(rest, dt, d, n, minLen, anyChar);
        RestoreTaggedPair(ts, dt, d, n, e, Inline(rest, d, n, minLen, anyChar));
      case None =>
        InlineAtHead(ts, d, n, minLen, anyChar);
        assert forall x :: x in ts[1..] ==> x in ts;
        InlineRestores(ts[1..], dt, d, n, minLen, anyChar);
        RestoreHead(ts, dt, n, Inline(ts[1..], d, n, minLen, anyChar));
    }
  }

  lemma RestoreHead(ts: seq<Token>, dt: seq<Token>, n: TagName, x: seq<Token>)
    requires ts != [] && Mark(Open(n)) !in ts && Mark(Close(n)) !in ts
    requires Restore(x, dt, n) == ts[1..]
    ensures Restore([ts[0]] + x, dt, n) == ts
  {
    assert ts[0] in ts;
    assert ([ts[0]] + x)[1..] == x;
    assert ts == [ts[0]] + ts[1..];
  }

  lemma RestoreTaggedPair(ts: seq<Token>, dt: seq<Token>, d: string, n: TagName, e: nat, x: seq<Token>)
    requires Spells(dt, d) && |d| <= e && e + |d| <= |ts| && DelimAt(ts, 0, d) && DelimAt(ts, e, d)
    requires Mark(Open(n)) !in ts && Mark(Close(n)) !in ts
    requires Restore(x, dt, n) == ts[e + |d|..]
    ensures Restore([Mark(Open(n))] + ts[|d|..e] + [Mark(Close(n))] + x, dt, n) == ts
  {
    var content := ts[|d|..e];
    assert forall y :: y in content ==> y in ts;
    RestoreTagged(content, dt, n, x);
    DelimSpelled(ts, dt, d, 0);
    DelimSpelled(ts, dt, d, e);
    assert ts == ts[0..|d|] + content + ts[e..e + |d|] + ts[e + |d|..];
  }

  /** Restoring a tagged content puts the delimiter tokens back around it. */
  lemma RestoreTagged(content: seq<Token>, dt: seq<Token>, n: TagName, x: seq<Token>)
    requires Mark(Open(n)) !in content && Mark(Close(n)) !in content
    ensures Restore([Mark(Open(n))] + content + [Mark(Close(n))] + x, dt, n) == dt + content + dt + Restore(x, dt, n)
  {
    RestoreNone(content, dt, n);
    var tail := [Mark(Close(n))] + x;
    assert [Mark(Open(n))] + content + [Mark(Close(n))] + x == [Mark(Open(n))] + (content + tail);
    RestoreMarkCons(Open(n), content + tail, dt, n);
    RestoreAppend(content, tail, dt, n);
    RestoreMarkCons(Close(n), x, dt, n);
  }

  lemma RestoreMarkCons(t: Tag, x: seq<Token>, dt: seq<Token>, n: TagName)
    requires t.name == n
    ensures Restore([Mark(t)] + x, dt, n) == dt + Restore(x, dt, n)
  {
    assert ([Mark(t)] + x)[1..] == x;
  }

  /** A delimiter found in the text is the delimiter's tokens. */
  lemma DelimSpelled(ts: seq<Token>, dt: seq<Token>, d: string, i: nat)
    requires Spells(dt, d) && DelimAt(ts, i, d)
    ensures ts[i..i + |d|] == dt
  {
  }

  /** The pair around such a content closes at the second delimiter. */
  lemma PairEndAround(dt: seq<Token>, d: string, c: char, content: seq<Token>, minLen: nat, anyChar: bool)
    requires Spells(dt, d) && d != [] && Repeats(d, c) && |content| >= minLen
    requires forall j :: 0 <= j < |content| ==> content[j] != Ch(c) && !IsTerminatorToken(content[j])
    ensures PairEnd(dt + content + dt, d, minLen, anyChar).Some?
    ensures PairEnd(dt + content + dt, d, minLen, anyChar).value == |d| + |content|
  {
    var ts := dt + content + dt;
    var e := |d| + |content|;
    DelimsAround(dt, d, content);
    NoDelimInside(dt, d, c, content);
    assert ts[|d|..e] == content;
    assert NoTerminator(content);
    PairEndAt(ts, d, minLen, anyChar, e);
  }

  lemma DelimsAround(dt: seq<Token>, d: string, content: seq<Token>)
    requires Spells(dt, d)
    ensures DelimAt(dt + content + dt, 0, d)
    ensures DelimAt(dt + content + dt, |d| + |content|, d)
  {
    var ts := dt + content + dt;
    var e := |d| + |content|;
    forall j | 0 <= j < |d| ensures ts[j] == Ch(d[j]) && ts[e + j] == Ch(d[j]) {
      assert ts[j] == dt[j];
      assert ts[e + j] == dt[j];
    }
  }

  lemma NoDelimInside(dt: seq<Token>, d: string, c: char, content: seq<Token>)
    requires Spells(dt, d) && d != [] && Repeats(d, c)
    requires forall j :: 0 <= j < |content| ==> content[j] != Ch(c)
    ensures forall j :: |d| <= j < |d| + |content| ==> !DelimAt(dt + content + dt, j, d)
  {
    var ts := dt + content + dt;
    forall j | |d| <= j < |d| + |content| ensures !DelimAt(ts, j, d) {
      assert ts[j] == content[j - |d|] != Ch(d[0]);
    }
  }

  /** A pair closes at the first delimiter after the minimum content. */
  lemma PairEndAt(ts: seq<Token>, d: string, minLen: nat, anyChar: bool, e: nat)
    requires |d| + minLen <= e && DelimAt(ts, 0, d) && DelimAt(ts, e, d)
    requires forall j :: |d| + minLen <= j < e ==> !DelimAt(ts, j, d)
    requires anyChar || NoTerminator(ts[|d|..e])
    ensures PairEnd(ts, d, minLen, anyChar).Some? && PairEnd(ts, d, minLen, anyChar).value == e
  {
    FirstDelimAt(ts, d, |d| + minLen, e);
  }



  lemma {:induction false} FirstDelimAt(ts: seq<Token>, d: string, from: nat, e: nat)
    requires from <= e && DelimAt(ts, e, d)
    requires forall j :: from <= j < e ==> !DelimAt(ts, j, d)
    ensures FirstDelim(ts, d, from) == Some(e)
    decreases e - from
  {
    if from < e {
      FirstDelimAt(ts, d, from + 1, e);
    }
  }

  // ---------------------------------------------------------------------------
  // formatChatMessage (dashboard.js:255-292)

  /** The marked-up text after every step but the final rendering. */
  function Markup(text: string): (ts: seq<Token>)
    ensures Ch('<') !in ts && Ch('\n') !in ts
  {
    var escaped := Lift(Escape(text));
    assert Ch('<') !in escaped;
    var numbered := NumberedStep(escaped);
    assert Mark(Open(Ul)) !in numbered;
    var bulleted := BulletStep(numbered);
    assert Ch('<') !in bulleted;
    var broken := Breaks(bulleted);
    var bold := Inline(broken, "**", Strong, 1, false);
    var italic := Inline(bold, "*", Em, 1, false);
    var blocks := Inline(italic, "```", Pre, 0, true);
    Inline(blocks, "`", Code, 1, false)
  }

  /** `formatChatMessage(text)`: '' for a missing or empty text; otherwise the
      escaped text with list items, line breaks and inline tags inserted. The
      result has no line feed, and every `<` in it starts one of the inserted tags. */
  function FormatChatMessage(text: Option<string>): (r: string)
    ensures !Truthy(text) ==> r == ""
    ensures '\n' !in r
    ensures TagsOnly(r)
  {
    if !Truthy(text) then ""
    else
      var ts := Markup(text.value);
      RenderTagsOnly(ts);
      RenderNoNewline(ts);
      Render(ts)
  }

  /** No line of `s` begins like a list marker (a digit, `-` or `•`). */
  predicate NoMarkerLine(s: string)
  {
    forall i :: 0 <= i < |s| && (i == 0 || IsTerminator(s[i - 1])) ==>
      !IsDigit(s[i]) && s[i] != '-' && s[i] != '\U{2022}'
  }

  /** A text with nothing to format, such as "hello", is shown as it is, with
      each line feed turned into `<br>`: no character to escape, no `*` or
      backtick, and no line that begins like a list marker. */
  lemma FormatPlainText(s: string)
    requires NothingToFormat(s)
    ensures FormatChatMessage(Some(s)) == ReplaceChar(s, '\n', "<br>")
  {
    if s != "" {
      MarkupOfPlain(s);
      BreaksIsReplace(Lift(s));
    }
  }

  /** No character to escape, no `*` or backtick, and no line that begins
      like a list marker. */
  predicate NothingToFormat(s: string)
  {
    && (forall i :: 0 <= i < |s| ==> s[i] != '&' && s[i] != '<' && s[i] != '>' && s[i] != '*' && s[i] != '`')
    && NoMarkerLine(s)
  }

  lemma MarkupOfPlain(s: string)
    requires NothingToFormat(s)
    ensures Markup(s) == Breaks(Lift(s))
  {
    EscapePlain(s);
    ListedPlain(s);
    MarkupFrom(s, Lift(s));
    BrokenPlain(s);
  }

  lemma ListedPlain(s: string)
    requires NoMarkerLine(s) && Escape(s) == s
    ensures BulletStep(NumberedStep(Lift(Escape(s)))) == Lift(s)
  {
    ListStepsKeep(s);
  }

  lemma BrokenPlain(s: string)
    requires NothingToFormat(s)
    ensures InlinePasses(Breaks(Lift(s))) == Breaks(Lift(s))
  {
    var ts := Lift(s);
    assert Ch('*') !in ts && Ch('`') !in ts;
    InlineStepsKeep(Breaks(ts));
  }

  /** `Markup` as its inline passes over the line-broken result of the list steps. */
  lemma MarkupFrom(text: string, listed: seq<Token>)
    requires BulletStep(NumberedStep(Lift(Escape(text)))) == listed
    ensures Markup(text) == InlinePasses(Breaks(listed))
  {
  }

  function InlinePasses(ts: seq<Token>): seq<Token>
  {
    Inline(Inline(Inline(Inline(ts, "**", Strong, 1, false), "*", Em, 1, false), "```", Pre, 0, true), "`", Code, 1, false)
  }

  /** Escaping a text without `&`, `<` or `>` changes nothing. */
  lemma EscapePlain(s: string)
    requires NothingToFormat(s)
    ensures Escape(s) == s
  {
    assert '&' !in s && '<' !in s && '>' !in s;
    ReplaceAbsent(s, '&', "&amp;");
    ReplaceAbsent(s, '<', "&lt;");
    ReplaceAbsent(s, '>', "&gt;");
  }

  /** Both list steps leave a text with no marker line as it is. */
  lemma ListStepsKeep(s: string)
    requires NoMarkerLine(s)
    ensures NumberedStep(Lift(s)) == Lift(s)
    ensures BulletStep(NumberedStep(Lift(s))) == Lift(s)
  {
    PlainKeepsLines(s, Numbered);
    PlainKeepsLines(s, Bullet);
  }

  /** The four inline passes leave a text without `*` or backtick as it is. */
  lemma InlineStepsKeep(ts: seq<Token>)
    requires Ch('*') !in ts && Ch('`') !in ts
    ensures InlinePasses(ts) == ts
  {
    InlineNoDelimChar(ts, "**", Strong, 1, false);
    InlineNoDelimChar(ts, "*", Em, 1, false);
    InlineNoDelimChar(ts, "```", Pre, 0, true);
    InlineNoDelimChar(ts, "`", Code, 1, false);
  }

  /** The list-item pass leaves a text with no marker line as it is. */
  lemma PlainKeepsLines(s: string, kind: ListKind)
    requires NoMarkerLine(s)
    ensures RewriteLines(Lift(s), kind) == Lift(s)
  {
    var ts := Lift(s);
    forall i | 0 <= i < |ts| && LineStartAt(ts, i, true) ensures ItemMatch(ts[i..], kind).None? {
      assert i == 0 || IsTerminator(s[i - 1]);
      MarkerLineAt(s, i);
      assert ts[i..][0] == ts[i] == Ch(s[i]);
      NotAMarker(ts[i..], kind, s[i]);
    }
    RewriteNoItem(ts, kind, true);
  }

  lemma MarkerLineAt(s: string, i: nat)
    requires NoMarkerLine(s) && i < |s| && (i == 0 || IsTerminator(s[i - 1]))
    ensures !IsDigit(s[i]) && s[i] != '-' && s[i] != '\U{2022}'
  {
  }

  /** No item starts at a character other than a digit, `-` or `•`. */
  lemma NotAMarker(ts: seq<Token>, kind: ListKind, c: char)
    requires ts != [] && ts[0] == Ch(c)
    requires !IsDigit(c) && c != '-' && c != '\U{2022}'
    ensures ItemMatch(ts, kind).None?
  {
  }

  /** A text without the delimiter's first character is left as it is. */
  lemma InlineNoDelimChar(ts: seq<Token>, d: string, n: TagName, minLen: nat, anyChar: bool)
    requires d != [] && Ch(d[0]) !in ts
    ensures Inline(ts, d, n, minLen, anyChar) == ts
  {
    forall j | 0 <= j ensures !DelimAt(ts, j, d) {
      if j < |ts| {
        assert ts[j] in ts;
      }
    }
    InlineNoDelim(ts, d, n, minLen, anyChar);
  }

  // ---------------------------------------------------------------------------
  // The change class of the summary table (dashboard.js:390-392)

  datatype ChangeClass = Positive | Negative | Neutral

  function ClassOfChange(change: Option<string>): (r: ChangeClass)
    ensures r == Positive <==> change.Some? && |change.value| > 0 && change.value[0] == '+'
    ensures r == Negative <==> change.Some? && |change.value| > 0 && change.value[0] == '-'
  {
    if Truthy(change) && change.value != "N/A" then
      if StartsWith(change.value, "+") then Positive
      else if StartsWith(change.value, "-") then Negative
      else Neutral
    else Neutral
  }

  /** The class of a change computed by `calculateChange`: positive for a rise or
      no move, negative for a fall, and neutral when there was no usable previous
      price ("0.00%") or the current price is not a number ("NaN%"). */
  lemma ClassOfCalculatedChange(cur: Num, prev: Num)
    ensures ClassOfChange(Some(CalculateChange(cur, prev))) ==
              if !HasPrevious(prev) || cur.None? then Neutral
              else if ChangePercent(cur.value, prev.value) >= 0.0 then Positive
              else Negative
  {
  }
}
