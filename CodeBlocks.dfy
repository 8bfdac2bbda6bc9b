/** The text-safety transform `ChatExporter.process_code_blocks`: HTML escaping
    followed by a two-state line machine that gathers fenced code into
    `<pre><code>` blocks and joins everything else with `<br>`. */
module CodeBlocks {
  import opened Text

  // ---------------------------------------------------------------------
  // Escaping

  /** The entity that stands for one character in the escaped text. */
  function EntityOf(c: char): string {
    if c == '&' then "&amp;" else if c == '<' then "&lt;" else if c == '>' then "&gt;" else [c]
  }

  /** Reference definition of the escaping: each character replaced by its entity. */
  function Escape(s: string): string {
    if s == [] then [] else EntityOf(s[0]) + Escape(s[1..])
  }

  /** The escaped text holds no `<` or `>`, and a newline exactly when the
      text does. */
  lemma {:induction false} EscapeChars(s: string)
    ensures '<' !in Escape(s) && '>' !in Escape(s)
    ensures '\n' in Escape(s) <==> '\n' in s
  {
    if s != [] {
      EscapeChars(s[1..]);
      assert s == [s[0]] + s[1..];
    }
  }

  /** `s.replace(c, repl)` for a one-character pattern. */
  function ReplaceChar(s: string, c: char, repl: string): string {
    if s == [] then [] else (if s[0] == c then repl else [s[0]]) + ReplaceChar(s[1..], c, repl)
  }

  /** The escaping as the exporter performs it: three successive replaces,
      `&` first so that the entities introduced for `<` and `>` are kept. */
  function EscapeText(s: string): string {
    ReplaceChar(ReplaceChar(ReplaceChar(s, '&', "&amp;"), '<', "&lt;"), '>', "&gt;")
  }

  /** Reads the three entities back as the characters they stand for. */
  function Unescape(s: string): string {
    if s == [] then []
    else if StartsWith(s, "&amp;") then "&" + Unescape(s[5..])
    else if StartsWith(s, "&lt;") then "<" + Unescape(s[4..])
    else if StartsWith(s, "&gt;") then ">" + Unescape(s[4..])
    else [s[0]] + Unescape(s[1..])
  }

  lemma {:induction false} ReplaceAppend(a: string, b: string, c: char, repl: string)
    ensures ReplaceChar(a + b, c, repl) == ReplaceChar(a, c, repl) + ReplaceChar(b, c, repl)
  {
    if a != [] {
      assert (a + b)[0] == a[0] && (a + b)[1..] == a[1..] + b;
      ReplaceAppend(a[1..], b, c, repl);
      var head := if a[0] == c then repl else [a[0]];
      calc {
        ReplaceChar(a + b, c, repl);
        head + ReplaceChar(a[1..] + b, c, repl);
        head + (ReplaceChar(a[1..], c, repl) + ReplaceChar(b, c, repl));
        (head + ReplaceChar(a[1..], c, repl)) + ReplaceChar(b, c, repl);
      }
    } else {
      assert a + b == b;
    }
  }

  lemma {:induction false} ReplaceAbsent(s: string, c: char, repl: string)
    requires c !in s
    ensures ReplaceChar(s, c, repl) == s
  {
    if s != [] {
      ReplaceAbsent(s[1..], c, repl);
    }
  }

  /** The three successive replaces escape exactly as the reference does. */
  lemma {:induction false} EscapeTextIsEscape(s: string)
    ensures EscapeText(s) == Escape(s)
  {
    if s != [] {
      assert s == [s[0]] + s[1..];
      EscapeTextAppend([s[0]], s[1..]);
      EscapeTextChar(s[0]);
      EscapeTextIsEscape(s[1..]);
    }
  }

  lemma EscapeTextAppend(a: string, b: string)
    ensures EscapeText(a + b) == EscapeText(a) + EscapeText(b)
  {
    var a1, b1 := ReplaceChar(a, '&', "&amp;"), ReplaceChar(b, '&', "&amp;");
    var a2, b2 := ReplaceChar(a1, '<', "&lt;"), ReplaceChar(b1, '<', "&lt;");
    ReplaceAppend(a, b, '&', "&amp;");
    ReplaceAppend(a1, b1, '<', "&lt;");
    ReplaceAppend(a2, b2, '>', "&gt;");
  }

  lemma EscapeTextChar(x: char)
    ensures EscapeText([x]) == EntityOf(x)
  {
    ReplaceOne(x, '&', "&amp;");
    if x == '&' {
      ReplaceAbsent("&amp;", '<', "&lt;");
      ReplaceAbsent("&amp;", '>', "&gt;");
    } else {
      ReplaceOne(x, '<', "&lt;");
      if x == '<' {
        ReplaceAbsent("&lt;", '>', "&gt;");
      } else {
        ReplaceOne(x, '>', "&gt;");
      }
    }
  }

  lemma ReplaceOne(x: char, c: char, repl: string)
    ensures ReplaceChar([x], c, repl) == if x == c then repl else [x]
  {
    assert [x][1..] == [];
    assert (if x == c then repl else [x]) + [] == if x == c then repl else [x];
  }

  /** Escaping loses nothing: unescaping gives the original text back. */
  lemma {:induction false} UnescapeEscape(s: string)
    ensures Unescape(Escape(s)) == s
  {
    if s != [] {
      assert Escape(s) == EntityOf(s[0]) + Escape(s[1..]);
      UnescapeEscape(s[1..]);
      UnescapeEntity(s[0], Escape(s[1..]));
      assert s == [s[0]] + s[1..];
    }
  }

  /** Unescaping reads one entity back as its character. */
  lemma UnescapeEntity(c: char, rest: string)
    ensures Unescape(EntityOf(c) + rest) == [c] + Unescape(rest)
  {
    if c == '&' {
      UnescapeAmp(rest);
    } else if c == '<' {
      UnescapeLt(rest);
    } else if c == '>' {
      UnescapeGt(rest);
    } else {
      UnescapeOther(c, rest);
    }
  }

  lemma UnescapeAmp(rest: string)
    ensures Unescape("&amp;" + rest) == "&" + Unescape(rest)
  {
    var t := "&amp;" + rest;
    assert t[..5] == "&amp;" && t[5..] == rest;
  }

  lemma UnescapeLt(rest: string)
    ensures Unescape("&lt;" + rest) == "<" + Unescape(rest)
  {
    var t := "&lt;" + rest;
    NotAmp(t);
    assert t[..4] == "&lt;" && t[4..] == rest;
  }

  lemma UnescapeGt(rest: string)
    ensures Unescape("&gt;" + rest) == ">" + Unescape(rest)
  {
    var t := "&gt;" + rest;
    NotAmp(t);
    assert !StartsWith(t, "&lt;") by {
      assert t[..4][1] == 'g';
    }
    assert t[..4] == "&gt;" && t[4..] == rest;
  }

  lemma UnescapeOther(c: char, rest: string)
    requires c != '&'
    ensures Unescape([c] + rest) == [c] + Unescape(rest)
  {
    var t := [c] + rest;
    if |t| >= 4 {
      assert t[..4][0] == c;
    }
    if |t| >= 5 {
      assert t[..5][0] == c;
    }
    assert t[0] == c && t[1..] == rest;
  }

  lemma NotAmp(t: string)
    requires |t| >= 2 && t[1] != 'a'
    ensures !StartsWith(t, "&amp;")
  {
    if |t| >= 5 {
      assert t[..5][1] == t[1];
    }
  }

  lemma {:induction false} EscapeAppend(a: string, b: string)
    ensures Escape(a + b) == Escape(a) + Escape(b)
  {
    if a != [] {
      assert (a + b)[0] == a[0] && (a + b)[1..] == a[1..] + b;
      EscapeAppend(a[1..], b);
      calc {
        Escape(a + b);
        EntityOf(a[0]) + Escape(a[1..] + b);
        EntityOf(a[0]) + (Escape(a[1..]) + Escape(b));
        (EntityOf(a[0]) + Escape(a[1..])) + Escape(b);
      }
    } else {
      assert a + b == b;
    }
  }

  // ---------------------------------------------------------------------
  // Fence lines

  const Fence: string := "```"

  /** `line.strip().startswith("```")`. */
  predicate IsFence(line: string) {
    StartsWith(Strip(line), Fence)
  }

  /** Whitespace escapes to itself, and any other character to an entity
      whose first and last characters are not whitespace. */
  lemma EntityOfSpace(c: char)
    ensures IsSpace(c) ==> EntityOf(c) == [c]
    ensures !IsSpace(c) ==> !IsSpace(EntityOf(c)[0]) && !IsSpace(EntityOf(c)[|EntityOf(c)| - 1])
  {
  }

  lemma {:induction false} LStripEscape(t: string)
    ensures LStrip(Escape(t)) == Escape(LStrip(t))
  {
    if t != [] {
      var e := Escape(t);
      assert e == EntityOf(t[0]) + Escape(t[1..]);
      EntityOfSpace(t[0]);
      if IsSpace(t[0]) {
        assert e[0] == t[0] && e[1..] == Escape(t[1..]);
        LStripEscape(t[1..]);
      } else {
        assert e[0] == EntityOf(t[0])[0];
      }
    }
  }

  lemma EscapeSnoc(front: string, last: char)
    ensures Escape(front + [last]) == Escape(front) + EntityOf(last)
  {
    EscapeAppend(front, [last]);
    assert Escape([last]) == EntityOf(last) + Escape([]);
  }

  lemma {:induction false} RStripEscape(u: string)
    ensures RStrip(Escape(u)) == Escape(RStrip(u))
  {
    if u != [] {
      var front, last := u[..|u| - 1], u[|u| - 1];
      var e := Escape(u);
      assert u == front + [last];
      EscapeSnoc(front, last);
      EntityOfSpace(last);
      if IsSpace(last) {
        assert e[..|e| - 1] == Escape(front);
        RStripEscape(front);
      } else {
        assert e[|e| - 1] == EntityOf(last)[|EntityOf(last)| - 1];
      }
    }
  }

  /** A prefix without `&`, `<` or `>` begins the escaped text exactly when it
      begins the text itself. */
  lemma {:induction false} StartsWithEscape(u: string, p: string)
    requires '&' !in p && '<' !in p && '>' !in p
    ensures StartsWith(Escape(u), p) <==> StartsWith(u, p)
  {
    if p != [] && u != [] {
      var x, rest := u[0], u[1..];
      assert u == [x] + rest;
      assert Escape(u) == EntityOf(x) + Escape(rest);
      StartsWithCons(x, rest, p);
      if x == '&' || x == '<' || x == '>' {
        EntityStartsWith(x, Escape(rest), p);
      } else {
        assert EntityOf(x) == [x];
        StartsWithCons(x, Escape(rest), p);
        StartsWithEscape(rest, p[1..]);
      }
    }
  }

  /** A non-empty prefix starts a text exactly when its first character
      starts the text and the rest of it starts the rest. */
  lemma StartsWithCons(x: char, rest: string, p: string)
    requires p != []
    ensures StartsWith([x] + rest, p) <==> x == p[0] && StartsWith(rest, p[1..])
  {
    var t := [x] + rest;
    if StartsWith(t, p) {
      assert t[..|p|][0] == x;
      assert rest[..|p| - 1] == t[..|p|][1..];
    }
    if x == p[0] && StartsWith(rest, p[1..]) {
      assert t[..|p|] == [x] + rest[..|p| - 1];
    }
  }

  /** An entity starts with `&`, which the prefix does not hold. */
  lemma EntityStartsWith(x: char, rest: string, p: string)
    requires x == '&' || x == '<' || x == '>'
    requires p != [] && '&' !in p
    ensures !StartsWith(EntityOf(x) + rest, p)
  {
    var t := EntityOf(x) + rest;
    assert t[0] == '&';
    if |p| <= |t| {
      assert t[..|p|][0] == t[0];
    }
  }

  /** Escaping neither makes nor unmakes a fence line. */
  lemma FenceEscape(t: string)
    ensures IsFence(Escape(t)) <==> IsFence(t)
  {
    assert Strip(Escape(t)) == Escape(Strip(t)) by {
      LStripEscape(t);
      RStripEscape(LStrip(t));
    }
    assert StartsWith(Escape(Strip(t)), Fence) <==> StartsWith(Strip(t), Fence) by {
      StartsWithEscape(Strip(t), Fence);
    }
  }

  // ---------------------------------------------------------------------
  // The line machine, specified by the segments between fence lines

  /** The number of fence lines. */
  function FenceCount(lines: seq<string>): nat {
    if lines == [] then 0
    else FenceCount(lines[..|lines| - 1]) + (if IsFence(lines[|lines| - 1]) then 1 else 0)
  }

  /** The lines that are not fence lines, in order. */
  function NonFence(lines: seq<string>): seq<string> {
    if lines == [] then []
    else NonFence(lines[..|lines| - 1]) + (if IsFence(lines[|lines| - 1]) then [] else [lines[|lines| - 1]])
  }

  /** The runs of lines around the fence lines: k fences cut the input into
      k + 1 segments. Even-numbered segments lie outside a code block,
      odd-numbered ones inside. */
  function Segments(lines: seq<string>): (segs: seq<seq<string>>)
    ensures segs != []
  {
    SegmentsUpTo(lines, |lines|)
  }

  /** The segments of the first n lines. */
  function SegmentsUpTo(lines: seq<string>, n: nat): (segs: seq<seq<string>>)
    requires n <= |lines|
    ensures segs != []
  {
    if n == 0 then [[]] else NextSegments(SegmentsUpTo(lines, n - 1), lines[n - 1])
  }

  /** The segments after one more line: a fence starts a new segment, any
      other line extends the last one. */
  function NextSegments(segs: seq<seq<string>>, l: string): (segs': seq<seq<string>>)
    requires segs != []
    ensures |segs'| == |segs| + (if IsFence(l) then 1 else 0)
  {
    if IsFence(l) then segs + [[]] else segs[..|segs| - 1] + [segs[|segs| - 1] + [l]]
  }

  /** What reaches the output: a line outside any code block, or the lines of one block. */
  datatype Piece = Plain(line: string) | Code(body: seq<string>)

  function Plains(seg: seq<string>): seq<Piece> {
    if seg == [] then [] else Plains(seg[..|seg| - 1]) + [Plain(seg[|seg| - 1])]
  }

  /** The pieces of segment i once the fence that ends it (if any) has been read. */
  function SegmentPieces(i: nat, seg: seq<string>): seq<Piece> {
    if i % 2 == 0 then Plains(seg) else [Code(seg)]
  }

  /** The pieces of segments that are all finished. */
  function Closed(segs: seq<seq<string>>): seq<Piece> {
    if segs == [] then []
    else Closed(segs[..|segs| - 1]) + SegmentPieces(|segs| - 1, segs[|segs| - 1])
  }

  function Last<T>(s: seq<T>): T
    requires s != []
  {
    s[|s| - 1]
  }

  /** All pieces: every segment, except that a code block left open at the end
      of the input appears only if it holds at least one line. */
  function Pieces(lines: seq<string>): seq<Piece> {
    PiecesOf(Segments(lines))
  }

  function PiecesOf(segs: seq<seq<string>>): seq<Piece>
    requires segs != []
  {
    var k := |segs| - 1;
    Closed(segs[..k]) + (if k % 2 == 1 && segs[k] == [] then [] else SegmentPieces(k, segs[k]))
  }

  /** Each line of a code block followed by a newline. */
  function WithNewlines(body: seq<string>): (r: seq<string>)
    ensures |r| == |body|
  {
    if body == [] then [] else WithNewlines(body[..|body| - 1]) + [body[|body| - 1] + "\n"]
  }

  /** A preformatted block around the collected code. */
  function PreBlock(code: string): string {
    "<pre><code>" + code + "</code></pre>"
  }

  function RenderPiece(p: Piece): string {
    match p
    case Plain(line) => line
    case Code(body) => PreBlock(Concat(WithNewlines(body)))
  }

  function RenderAll(ps: seq<Piece>): seq<string> {
    if ps == [] then [] else RenderAll(ps[..|ps| - 1]) + [RenderPiece(ps[|ps| - 1])]
  }

  /** What `process_code_blocks` returns for `text`. */
  function SafeHtml(text: string): string {
    if text == [] then [] else Join(RenderAll(Pieces(Split(EscapeText(text), '\n'))), "<br>")
  }

  /** The pieces already emitted after the segments read so far: those of
      every finished segment, and the lines of the last one when it lies
      outside a code block. */
  function Pending(segs: seq<seq<string>>): seq<Piece>
    requires segs != []
  {
    var k := |segs| - 1;
    Closed(segs[..k]) + (if k % 2 == 0 then Plains(segs[k]) else [])
  }

  /** The collected code lines of the last segment when it is an open block. */
  function OpenBody(segs: seq<seq<string>>): seq<string>
    requires segs != []
  {
    var k := |segs| - 1;
    if k % 2 == 1 then WithNewlines(segs[k]) else []
  }

  lemma PendingAfterFence(segs: seq<seq<string>>)
    requires segs != []
    ensures Pending(segs + [[]]) == Closed(segs)
  {
    assert (segs + [[]])[..|segs|] == segs;
  }

  lemma RenderSnoc(ps: seq<Piece>, p: Piece)
    ensures RenderAll(ps + [p]) == RenderAll(ps) + [RenderPiece(p)]
  {
    assert (ps + [p])[..|ps|] == ps;
  }

  /** A fence line that closes a block emits the block. */
  lemma CloseStep(segs: seq<seq<string>>, next: seq<seq<string>>)
    requires segs != [] && |segs| % 2 == 0 && next == segs + [[]]
    ensures |next| % 2 == 1
    ensures OpenBody(next) == []
    ensures RenderAll(Pending(next)) == RenderAll(Pending(segs)) + [PreBlock(Concat(OpenBody(segs)))]
  {
    var k := |segs| - 1;
    var done := Closed(segs[..k]);
    assert Closed(segs) == done + [Code(segs[k])];
    assert Pending(segs) == done by {
      assert done + [] == done;
    }
    assert OpenBody(segs) == WithNewlines(segs[k]);
    PendingAfterFence(segs);
    RenderSnoc(done, Code(segs[k]));
  }

  /** A fence line outside a block opens one and emits nothing. */
  lemma OpenStep(segs: seq<seq<string>>, next: seq<seq<string>>)
    requires |segs| % 2 == 1 && next == segs + [[]]
    ensures |next| % 2 == 0
    ensures OpenBody(next) == []
    ensures Pending(next) == Pending(segs)
  {
    PendingAfterFence(segs);
  }

  /** Any other line is collected inside a block ... */
  lemma CollectStep(segs: seq<seq<string>>, l: string, next: seq<seq<string>>)
    requires segs != [] && |segs| % 2 == 0
    requires next == segs[..|segs| - 1] + [segs[|segs| - 1] + [l]]
    ensures |next| % 2 == 0
    ensures OpenBody(next) == OpenBody(segs) + [l + "\n"]
    ensures Pending(next) == Pending(segs)
  {
    var k := |segs| - 1;
    assert next[..k] == segs[..k];
  }

  /** ... and emitted as it is outside one. */
  lemma PlainStep(segs: seq<seq<string>>, l: string, next: seq<seq<string>>)
    requires segs != [] && |segs| % 2 == 1
    requires next == segs[..|segs| - 1] + [segs[|segs| - 1] + [l]]
    ensures |next| % 2 == 1
    ensures OpenBody(next) == []
    ensures RenderAll(Pending(next)) == RenderAll(Pending(segs)) + [l]
  {
    var k := |segs| - 1;
    assert next[..k] == segs[..k];
    assert Pending(next) == Pending(segs) + [Plain(l)];
    RenderSnoc(Pending(segs), Plain(l));
  }

  /** The state of the line machine: the lines emitted so far, whether a
      code block is open, and the code lines collected for it. */
  datatype Scan = Scan(emitted: seq<string>, inBlock: bool, code: seq<string>)

  /** The machine's state after the first n lines. */
  function Run(lines: seq<string>, n: nat): Scan
    requires n <= |lines|
  {
    if n == 0 then Scan([], false, [])
    else
      var st := Run(lines, n - 1);
      var line := lines[n - 1];
      if IsFence(line) then
        if st.inBlock then Scan(st.emitted + [PreBlock(Concat(st.code))], false, [])
        else Scan(st.emitted, true, st.code)
      else if st.inBlock then Scan(st.emitted, true, st.code + [line + "\n"])
      else Scan(st.emitted + [line], false, st.code)
  }

  /** The machine's state after n lines is the one the segments of those
      lines determine: a block is open after an odd number of fences, it
      holds the code lines of the last segment, and the emitted lines are the
      rendered pending pieces. */
  predicate Matches(lines: seq<string>, n: nat)
    requires n <= |lines|
  {
    var st, segs := Run(lines, n), SegmentsUpTo(lines, n);
    && (st.inBlock <==> |segs| % 2 == 0)
    && st.code == OpenBody(segs)
    && st.emitted == RenderAll(Pending(segs))
  }

  lemma RunMatchesSegments(lines: seq<string>)
    ensures Matches(lines, |lines|)
  {
    RunStart(lines);
    var n := 0;
    while n < |lines|
      invariant n <= |lines| && Matches(lines, n)
    {
      RunStep(lines, n + 1);
      n := n + 1;
    }
  }

  lemma RunStart(lines: seq<string>)
    ensures Matches(lines, 0)
  {
    var none: seq<Piece> := [];
    assert SegmentsUpTo(lines, 0) == [[]];
    assert Pending([[]]) == none;
  }

  lemma RunStep(lines: seq<string>, n: nat)
    requires 0 < n <= |lines| && Matches(lines, n - 1)
    ensures Matches(lines, n)
  {
    var st := Run(lines, n - 1);
    if IsFence(lines[n - 1]) {
      if st.inBlock {
        RunClose(lines, n);
      } else {
        RunOpen(lines, n);
      }
    } else if st.inBlock {
      RunCollect(lines, n);
    } else {
      RunPlain(lines, n);
    }
  }

  lemma RunClose(lines: seq<string>, n: nat)
    requires 0 < n <= |lines| && Matches(lines, n - 1)
    requires IsFence(lines[n - 1]) && Run(lines, n - 1).inBlock
    ensures Matches(lines, n)
  {
    CloseStep(SegmentsUpTo(lines, n - 1), SegmentsUpTo(lines, n));
  }

  lemma RunOpen(lines: seq<string>, n: nat)
    requires 0 < n <= |lines| && Matches(lines, n - 1)
    requires IsFence(lines[n - 1]) && !Run(lines, n - 1).inBlock
    ensures Matches(lines, n)
  {
    OpenStep(SegmentsUpTo(lines, n - 1), SegmentsUpTo(lines, n));
  }

  lemma RunCollect(lines: seq<string>, n: nat)
    requires 0 < n <= |lines| && Matches(lines, n - 1)
    requires !IsFence(lines[n - 1]) && Run(lines, n - 1).inBlock
    ensures Matches(lines, n)
  {
    CollectStep(SegmentsUpTo(lines, n - 1), lines[n - 1], SegmentsUpTo(lines, n));
  }

  lemma RunPlain(lines: seq<string>, n: nat)
    requires 0 < n <= |lines| && Matches(lines, n - 1)
    requires !IsFence(lines[n - 1]) && !Run(lines, n - 1).inBlock
    ensures Matches(lines, n)
  {
    PlainStep(SegmentsUpTo(lines, n - 1), lines[n - 1], SegmentsUpTo(lines, n));
  }

  /** At the end of the input, a block left open is emitted if it holds a line ... */
  lemma FinalOpen(segs: seq<seq<string>>)
    requires segs != [] && |segs| % 2 == 0 && OpenBody(segs) != []
    ensures RenderAll(PiecesOf(segs)) == RenderAll(Pending(segs)) + [PreBlock(Concat(OpenBody(segs)))]
  {
    var k := |segs| - 1;
    var done := Closed(segs[..k]);
    assert segs[k] != [] && OpenBody(segs) == WithNewlines(segs[k]);
    assert PiecesOf(segs) == done + [Code(segs[k])];
    assert Pending(segs) == done by {
      assert done + [] == done;
    }
    RenderSnoc(done, Code(segs[k]));
  }

  /** ... and otherwise nothing more is emitted. */
  lemma FinalRest(segs: seq<seq<string>>)
    requires segs != [] && !(|segs| % 2 == 0 && OpenBody(segs) != [])
    ensures PiecesOf(segs) == Pending(segs)
  {
  }

  method ProcessCodeBlocks(text: string) returns (html: string)
    ensures text == [] ==> html == []
    ensures html == SafeHtml(text)
  {
    if text == [] {
      return "";
    }
    var escaped := EscapeText(text);
    var lines := Split(escaped, '\n');
    html := RenderLines(lines);
  }

  /** The line machine of `process_code_blocks` over the escaped lines. */
  method RenderLines(lines: seq<string>) returns (html: string)
    ensures html == Join(RenderAll(Pieces(lines)), "<br>")
  {
    var processed, inCodeBlock, codeBlock := ScanLines(lines);
    ghost var segs := Segments(lines);
    RunMatchesSegments(lines);
    assert Matches(lines, |lines|);
    if inCodeBlock && codeBlock != [] {
      FinalOpen(segs);
      processed := processed + [PreBlock(Concat(codeBlock))];
    } else {
      FinalRest(segs);
    }
    html := Join(processed, "<br>");
  }

  /** The `for line in lines` loop of `process_code_blocks`. */
  method ScanLines(lines: seq<string>) returns (processed: seq<string>, inCodeBlock: bool, codeBlock: seq<string>)
    ensures Scan(processed, inCodeBlock, codeBlock) == Run(lines, |lines|)
  {
    processed, inCodeBlock, codeBlock := [], false, [];
    var i := 0;
    while i < |lines|
      invariant 0 <= i <= |lines|
      invariant Scan(processed, inCodeBlock, codeBlock) == Run(lines, i)
    {
      var line := lines[i];
      if IsFence(line) {
        if inCodeBlock {
          processed := processed + [PreBlock(Concat(codeBlock))];
          codeBlock := [];
          inCodeBlock := false;
        } else {
          inCodeBlock := true;
        }
      } else if inCodeBlock {
        codeBlock := codeBlock + [line + "\n"];
      } else {
        processed := processed + [line];
      }
      i := i + 1;
    }
  }

  // ---------------------------------------------------------------------
  // Properties of the line machine

  /** The source lines a piece carries. */
  function LinesOf(p: Piece): seq<string> {
    match p
    case Plain(line) => [line]
    case Code(body) => body
  }

  function AllLines(ps: seq<Piece>): seq<string> {
    if ps == [] then [] else AllLines(ps[..|ps| - 1]) + LinesOf(ps[|ps| - 1])
  }

  function Flatten(segs: seq<seq<string>>): seq<string> {
    if segs == [] then [] else Flatten(segs[..|segs| - 1]) + segs[|segs| - 1]
  }

  lemma {:induction false} AllLinesAppend(a: seq<Piece>, b: seq<Piece>)
    ensures AllLines(a + b) == AllLines(a) + AllLines(b)
  {
    if b != [] {
      assert (a + b)[..|a + b| - 1] == a + b[..|b| - 1];
      AllLinesAppend(a, b[..|b| - 1]);
    } else {
      assert a + b == a;
    }
  }

  lemma AllLinesSnoc(ps: seq<Piece>, p: Piece)
    ensures AllLines(ps + [p]) == AllLines(ps) + LinesOf(p)
  {
    assert (ps + [p])[..|ps|] == ps;
  }

  lemma {:induction false} AllLinesPlains(seg: seq<string>)
    ensures AllLines(Plains(seg)) == seg
  {
    if seg != [] {
      var front, l := seg[..|seg| - 1], seg[|seg| - 1];
      AllLinesPlains(front);
      AllLinesSnoc(Plains(front), Plain(l));
    }
  }

  lemma AllLinesSegment(i: nat, seg: seq<string>)
    ensures AllLines(SegmentPieces(i, seg)) == seg
  {
    if i % 2 == 0 {
      AllLinesPlains(seg);
    } else {
      assert AllLines([Code(seg)]) == AllLines([]) + seg;
    }
  }

  lemma {:induction false} AllLinesClosed(segs: seq<seq<string>>)
    ensures AllLines(Closed(segs)) == Flatten(segs)
  {
    if segs != [] {
      var n := |segs| - 1;
      AllLinesClosed(segs[..n]);
      AllLinesAppend(Closed(segs[..n]), SegmentPieces(n, segs[n]));
      AllLinesSegment(n, segs[n]);
    }
  }

  lemma {:induction false} FlattenSegmentsUpTo(lines: seq<string>, n: nat)
    requires n <= |lines|
    ensures Flatten(SegmentsUpTo(lines, n)) == NonFence(lines[..n])
  {
    if n > 0 {
      var segs := SegmentsUpTo(lines, n - 1);
      var l := lines[n - 1];
      var k := |segs| - 1;
      FlattenSegmentsUpTo(lines, n - 1);
      assert lines[..n][..n - 1] == lines[..n - 1];
      if IsFence(l) {
        assert (segs + [[]])[..k + 1] == segs;
      } else {
        var segs' := segs[..k] + [segs[k] + [l]];
        assert segs'[..k] == segs[..k];
        assert Flatten(segs) == Flatten(segs[..k]) + segs[k];
      }
    }
  }

  lemma FlattenSegments(lines: seq<string>)
    ensures Flatten(Segments(lines)) == NonFence(lines)
  {
    FlattenSegmentsUpTo(lines, |lines|);
    assert lines[..|lines|] == lines;
  }

  /** k fence lines cut the input into k + 1 segments. */
  lemma {:induction false} SegmentsLength(lines: seq<string>, n: nat)
    requires n <= |lines|
    ensures |SegmentsUpTo(lines, n)| == FenceCount(lines[..n]) + 1
  {
    if n > 0 {
      SegmentsLength(lines, n - 1);
      assert lines[..n][..n - 1] == lines[..n - 1];
    }
  }

  /** Fence lines are dropped, and every other line reaches the output, in
      order, either as a text line or inside a code block. */
  lemma PiecesKeepNonFenceLines(lines: seq<string>)
    ensures AllLines(Pieces(lines)) == NonFence(lines)
  {
    var segs := Segments(lines);
    var k := |segs| - 1;
    FlattenSegments(lines);
    AllLinesClosed(segs[..k]);
    assert segs[..k + 1] == segs;
    var tail := if k % 2 == 1 && segs[k] == [] then [] else SegmentPieces(k, segs[k]);
    AllLinesAppend(Closed(segs[..k]), tail);
    AllLinesSegment(k, segs[k]);
    assert AllLines(tail) == segs[k];
  }

  /** The number of code blocks among the pieces. */
  function CodeCount(ps: seq<Piece>): nat {
    if ps == [] then 0 else CodeCount(ps[..|ps| - 1]) + (if ps[|ps| - 1].Code? then 1 else 0)
  }

  lemma {:induction false} CodeCountAppend(a: seq<Piece>, b: seq<Piece>)
    ensures CodeCount(a + b) == CodeCount(a) + CodeCount(b)
  {
    if b != [] {
      assert (a + b)[..|a + b| - 1] == a + b[..|b| - 1];
      CodeCountAppend(a, b[..|b| - 1]);
    } else {
      assert a + b == a;
    }
  }

  lemma {:induction false} CodeCountPlains(seg: seq<string>)
    ensures CodeCount(Plains(seg)) == 0
  {
    if seg != [] {
      CodeCountPlains(seg[..|seg| - 1]);
      CodeCountAppend(Plains(seg[..|seg| - 1]), [Plain(seg[|seg| - 1])]);
    }
  }

  lemma CodeCountSegment(i: nat, seg: seq<string>)
    ensures CodeCount(SegmentPieces(i, seg)) == i % 2
  {
    if i % 2 == 0 {
      CodeCountPlains(seg);
    } else {
      assert CodeCount([Code(seg)]) == CodeCount([]) + 1;
    }
  }

  lemma {:induction false} CodeCountClosed(segs: seq<seq<string>>)
    ensures CodeCount(Closed(segs)) == |segs| / 2
  {
    if segs != [] {
      var n := |segs| - 1;
      CodeCountClosed(segs[..n]);
      CodeCountAppend(Closed(segs[..n]), SegmentPieces(n, segs[n]));
      CodeCountSegment(n, segs[n]);
    }
  }

  /** One `<pre><code>` block per closed pair of fences, plus one for a block
      left open at the end of the input that holds at least one line. */
  lemma CodeBlockCount(lines: seq<string>)
    ensures |Segments(lines)| == FenceCount(lines) + 1
    ensures CodeCount(Pieces(lines))
        == FenceCount(lines) / 2
           + (if FenceCount(lines) % 2 == 1 && Last(Segments(lines)) != [] then 1 else 0)
  {
    SegmentsLength(lines, |lines|);
    assert lines[..|lines|] == lines;
    CodeCountPieces(Segments(lines));
  }

  lemma CodeCountPieces(segs: seq<seq<string>>)
    requires segs != []
    ensures CodeCount(PiecesOf(segs))
        == (|segs| - 1) / 2 + (if (|segs| - 1) % 2 == 1 && Last(segs) != [] then 1 else 0)
  {
    var k := |segs| - 1;
    CodeCountClosed(segs[..k]);
    if k % 2 == 1 && segs[k] == [] {
      assert PiecesOf(segs) == Closed(segs[..k]) by {
        assert Closed(segs[..k]) + [] == Closed(segs[..k]);
      }
    } else {
      CodeCountAppend(Closed(segs[..k]), SegmentPieces(k, segs[k]));
      CodeCountSegment(k, segs[k]);
    }
  }

  lemma {:induction false} NonFenceIn(lines: seq<string>, x: string)
    requires x in NonFence(lines)
    ensures x in lines
  {
    var front := lines[..|lines| - 1];
    if x in NonFence(front) {
      NonFenceIn(front, x);
    }
  }

  /** No `<` or `>` of the message survives: every line that reaches the
      output, as text or inside a code block, is free of both. */
  lemma NoRawBrackets(text: string, line: string)
    requires line in AllLines(Pieces(Split(EscapeText(text), '\n')))
    ensures '<' !in line && '>' !in line
  {
    var lines := Split(EscapeText(text), '\n');
    PiecesKeepNonFenceLines(lines);
    NonFenceIn(lines, line);
    EscapeTextIsEscape(text);
    EscapeChars(text);
    var k :| 0 <= k < |lines| && lines[k] == line;
    if '<' in line {
      SplitChars(EscapeText(text), '\n', k, '<');
    }
    if '>' in line {
      SplitChars(EscapeText(text), '\n', k, '>');
    }
  }

  lemma {:induction false} SplitWithoutSep(s: string, sep: char)
    requires sep !in s
    ensures Split(s, sep) == [s]
  {
    if s != [] {
      SplitWithoutSep(s[1..], sep);
      assert s == [s[0]] + s[1..];
    }
  }

  /** A single line that is not a fence is emitted as it is. */
  lemma OneLineRenders(e: string)
    requires !IsFence(e)
    ensures RenderAll(Pieces([e])) == [e]
  {
    var none: seq<string> := [];
    assert Segments([e]) == [[e]] by {
      assert SegmentsUpTo([e], 0) == [none];
      assert Segments([e]) == NextSegments([none], e);
      assert [none][..0] == [] && none + [e] == [e];
      assert NextSegments([none], e) == [none][..0] + [none + [e]];
    }
    OneSegmentRenders(e);
  }

  lemma OneSegmentRenders(e: string)
    ensures RenderAll(PiecesOf([[e]])) == [e]
  {
    assert [[e]][..0] == [];
    assert Plains([e]) == [Plain(e)] by {
      assert [e][..0] == [];
    }
    assert PiecesOf([[e]]) == [Plain(e)];
    assert RenderAll([Plain(e)]) == [e];
  }

  /** A one-line message that is not a fence comes out exactly escaped. */
  lemma SingleLineIsEscaped(text: string)
    requires text != [] && '\n' !in text && !IsFence(text)
    ensures SafeHtml(text) == Escape(text)
  {
    EscapeTextIsEscape(text);
    EscapeChars(text);
    var e := Escape(text);
    SplitWithoutSep(e, '\n');
    FenceEscape(text);
    OneLineRenders(e);
  }

  /** A lone fence line opens a block that never collects a line. */
  lemma OneFenceVanishes(e: string)
    requires IsFence(e)
    ensures RenderAll(Pieces([e])) == []
  {
    var none: seq<string> := [];
    assert Segments([e]) == [none, none] by {
      assert SegmentsUpTo([e], 0) == [none];
      assert Segments([e]) == NextSegments([none], e);
    }
    assert [none, none][..1] == [none];
    assert Closed([none]) == [] by {
      assert [none][..0] == [];
    }
  }

  /** A one-line message that is a fence, such as "```print(1)```", comes out
      empty: the fence is dropped and the block it opens stays empty. */
  lemma FenceOnlyMessage(text: string)
    requires '\n' !in text && IsFence(text)
    ensures SafeHtml(text) == ""
  {
    EscapeTextIsEscape(text);
    EscapeChars(text);
    var e := Escape(text);
    SplitWithoutSep(e, '\n');
    FenceEscape(text);
    OneFenceVanishes(e);
  }
}
