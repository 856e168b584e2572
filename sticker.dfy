/**
 The text handling of the quoted-text sticker: HTML escaping of the quoted
 text, its split into trimmed non-empty lines, the cut of each line into
 pieces of at most 32 characters, and the word wrap of the sender's name.
 */
module Sticker {

  import opened Wrappers
  import opened Text

  /** `s.replace(/c/g, rep)`. */
  function ReplaceChar(s: string, c: char, rep: string): (r: string)
    ensures c !in rep ==> c !in r
    ensures forall d :: d != c && d !in rep ==> (d in r <==> d in s)
  {
    if s == [] then [] else (if s[0] == c then rep else [s[0]]) + ReplaceChar(s[1..], c, rep)
  }

  /** The three chained `replace` calls: `&` first, then `<`, then `>`. */
  function EscapeHtml(s: string): (r: string)
    ensures '<' !in r && '>' !in r
  {
    ReplaceChar(ReplaceChar(ReplaceChar(s, '&', "&amp;"), '<', "&lt;"), '>', "&gt;")
  }

  /** Escaping of one character, as a reference for the chained replacements. */
  function EscapeChar(c: char): string {
    if c == '&' then "&amp;" else if c == '<' then "&lt;" else if c == '>' then "&gt;" else [c]
  }

  function EscapeEach(s: string): string {
    if s == [] then [] else EscapeChar(s[0]) + EscapeEach(s[1..])
  }

  lemma {:induction false} ReplaceAppend(a: string, b: string, c: char, rep: string)
    ensures ReplaceChar(a + b, c, rep) == ReplaceChar(a, c, rep) + ReplaceChar(b, c, rep)
  {
    if a == [] {
      assert a + b == b;
    } else {
      assert (a + b)[1..] == a[1..] + b;
      ReplaceAppend(a[1..], b, c, rep);
    }
  }

  lemma EscapeHtmlAppend(a: string, b: string)
    ensures EscapeHtml(a + b) == EscapeHtml(a) + EscapeHtml(b)
  {
    ReplaceAppend(a, b, '&', "&amp;");
    var a1, b1 := ReplaceChar(a, '&', "&amp;"), ReplaceChar(b, '&', "&amp;");
    ReplaceAppend(a1, b1, '<', "&lt;");
    ReplaceAppend(ReplaceChar(a1, '<', "&lt;"), ReplaceChar(b1, '<', "&lt;"), '>', "&gt;");
  }

  lemma EscapeHtmlChar(c: char)
    ensures EscapeHtml([c]) == EscapeChar(c)
  {
    ReplaceSingle(c, '&', "&amp;");
    if c == '&' {
      ReplaceAbsent("&amp;", '<', "&lt;");
      ReplaceAbsent("&amp;", '>', "&gt;");
    } else {
      ReplaceSingle(c, '<', "&lt;");
      if c == '<' {
        ReplaceAbsent("&lt;", '>', "&gt;");
      } else {
        ReplaceSingle(c, '>', "&gt;");
      }
    }
  }

  /** Replacing `&` first means the later passes never touch an `&amp;` they did not make: the chain escapes character by character. */
  lemma {:induction false} EscapeHtmlPerChar(s: string)
    ensures EscapeHtml(s) == EscapeEach(s)
  {
    if s != [] {
      assert s == [s[0]] + s[1..];
      EscapeHtmlAppend([s[0]], s[1..]);
      EscapeHtmlChar(s[0]);
      EscapeHtmlPerChar(s[1..]);
    }
  }

  lemma ReplaceSingle(x: char, c: char, rep: string)
    ensures ReplaceChar([x], c, rep) == if x == c then rep else [x]
  {
    assert [x][1..] == [];
  }

  lemma {:induction false} ReplaceAbsent(s: string, c: char, rep: string)
    requires c !in s
    ensures ReplaceChar(s, c, rep) == s
  {
    if s != [] {
      ReplaceAbsent(s[1..], c, rep);
      assert [s[0]] + s[1..] == s;
    }
  }

  /** The inverse of the escaping: decode the three entities, keep everything else. */
  function Unescape(t: string): string {
    if t == [] then []
    else if "&amp;" <= t then "&" + Unescape(t[5..])
    else if "&lt;" <= t then "<" + Unescape(t[4..])
    else if "&gt;" <= t then ">" + Unescape(t[4..])
    else [t[0]] + Unescape(t[1..])
  }

  lemma {:induction false} UnescapeEach(s: string)
    ensures Unescape(EscapeEach(s)) == s
  {
    if s != [] {
      var c, rest := s[0], s[1..];
      var e := EscapeEach(rest);
      UnescapeEach(rest);
      var t := EscapeChar(c) + e;
      assert EscapeEach(s) == t;
      if c == '&' {
        assert "&amp;" <= t && t[5..] == e;
      } else if c == '<' {
        assert !("&amp;" <= t) by { assert t[1] == 'l'; }
        assert "&lt;" <= t && t[4..] == e;
      } else if c == '>' {
        assert !("&amp;" <= t) by { assert t[1] == 'g'; }
        assert !("&lt;" <= t) by { assert t[1] == 'g'; }
        assert "&gt;" <= t && t[4..] == e;
      } else {
        assert t[0] == c && t[1..] == e;
      }
      assert [c] + rest == s;
    }
  }

  /** No quoted text is lost to the escaping. */
  lemma EscapeRoundTrip(s: string)
    ensures Unescape(EscapeHtml(s)) == s
  {
    EscapeHtmlPerChar(s);
    UnescapeEach(s);
  }

  /** `text.split(/\r?\n/)`: split at line feeds, a carriage return before a line feed going with it. */
  function LinePieces(s: string): (r: seq<string>)
    ensures |r| == |Split(s, '\n')| >= 1
    ensures forall i :: 0 <= i < |r| ==> '\n' !in r[i]
  {
    var parts := Split(s, '\n');
    seq(|parts|, i requires 0 <= i < |parts| =>
      if i < |parts| - 1 && parts[i] != [] && parts[i][|parts[i]| - 1] == '\r'
      then parts[i][..|parts[i]| - 1] else parts[i])
  }

  /** Text without a line feed is one line. */
  lemma LinePiecesSingle(s: string)
    requires '\n' !in s
    ensures LinePieces(s) == [s]
  {
    SplitWithoutSeparator(s, '\n');
  }

  /** A line ended by a bare line feed is the first piece as it stands. */
  lemma LinePiecesLf(a: string, b: string)
    requires '\n' !in a && (a == [] || a[|a| - 1] != '\r')
    ensures LinePieces(a + "\n" + b) == [a] + LinePieces(b)
  {
    SplitAtFirst(a, b, '\n');
    var r, t := LinePieces(a + "\n" + b), LinePieces(b);
    assert forall i :: 1 <= i < |r| ==> r[i] == t[i - 1];
  }

  /** A line ended by carriage return and line feed is the first piece without the carriage return. */
  lemma LinePiecesCrLf(a: string, b: string)
    requires '\n' !in a
    ensures LinePieces(a + "\r\n" + b) == [a] + LinePieces(b)
  {
    var a' := a + "\r";
    assert a + "\r\n" + b == a' + "\n" + b;
    SplitAtFirst(a', b, '\n');
    var r, t := LinePieces(a' + "\n" + b), LinePieces(b);
    assert a'[..|a'| - 1] == a;
    assert forall i :: 1 <= i < |r| ==> r[i] == t[i - 1];
  }

  /** `.map(l => l.trim()).filter(Boolean)`. */
  function NonEmptyTrimmed(pieces: seq<string>): (r: seq<string>)
    ensures forall i :: 0 <= i < |r| ==> r[i] != [] && Trimmed(r[i])
  {
    if pieces == [] then []
    else
      var t := Trim(pieces[0]);
      (if t == [] then [] else [t]) + NonEmptyTrimmed(pieces[1..])
  }

  /** The filter works piece by piece: the kept lines of two lists are the kept lines of each, in order. */
  lemma {:induction false} NonEmptyTrimmedAppend(a: seq<string>, b: seq<string>)
    ensures NonEmptyTrimmed(a + b) == NonEmptyTrimmed(a) + NonEmptyTrimmed(b)
  {
    if a == [] {
      assert a + b == b;
    } else {
      assert (a + b)[1..] == a[1..] + b;
      NonEmptyTrimmedAppend(a[1..], b);
    }
  }

  /** One piece is kept, trimmed, exactly when it is not blank. */
  lemma NonEmptyTrimmedOne(p: string)
    ensures NonEmptyTrimmed([p]) == if Trim(p) == [] then [] else [Trim(p)]
  {
    assert [p][1..] == [];
  }

  /** A line survives the filter exactly when it is the non-empty trim of some piece. */
  lemma {:induction false} NonEmptyTrimmedMembers(pieces: seq<string>, t: string)
    ensures t in NonEmptyTrimmed(pieces) <==> t != [] && exists i :: 0 <= i < |pieces| && Trim(pieces[i]) == t
  {
    if pieces != [] {
      var rest := pieces[1..];
      NonEmptyTrimmedMembers(rest, t);
      if exists i :: 0 <= i < |rest| && Trim(rest[i]) == t {
        var i :| 0 <= i < |rest| && Trim(rest[i]) == t;
        assert Trim(pieces[i + 1]) == t;
      }
      if exists i :: 0 <= i < |pieces| && Trim(pieces[i]) == t {
        var i :| 0 <= i < |pieces| && Trim(pieces[i]) == t;
        if i > 0 {
          assert Trim(rest[i - 1]) == t;
        }
      }
    }
  }

  const ChunkWidth: nat := 32

  /** One line cut into pieces of `ChunkWidth` characters, the remainder last. */
  function Chunks(l: string): (r: seq<string>)
    ensures forall i :: 0 <= i < |r| ==> 1 <= |r[i]| <= ChunkWidth
    decreases |l|
  {
    if |l| > ChunkWidth then [l[..ChunkWidth]] + Chunks(l[ChunkWidth..])
    else if l == [] then []
    else [l]
  }

  function Concat(ls: seq<string>): string {
    if ls == [] then [] else ls[0] + Concat(ls[1..])
  }

  /** Every piece has between 1 and 32 characters, and the pieces put back together give the line. */
  lemma {:induction false} ChunksShape(l: string)
    ensures forall i :: 0 <= i < |Chunks(l)| ==> 1 <= |Chunks(l)[i]| <= ChunkWidth
    ensures Concat(Chunks(l)) == l
  {
    if |l| > ChunkWidth {
      var rest := l[ChunkWidth..];
      ChunksShape(rest);
      var r := Chunks(l);
      assert r[1..] == Chunks(rest);
      assert forall i :: 1 <= i < |r| ==> r[i] == Chunks(rest)[i - 1];
      assert l[..ChunkWidth] + rest == l;
    } else if l != [] {
      assert Concat([l]) == l + Concat([]);
    }
  }

  /** All lines' pieces in order, the first line's first. */
  function WrapLines(lines: seq<string>): seq<string> {
    if lines == [] then [] else WrapLines(lines[..|lines| - 1]) + Chunks(lines[|lines| - 1])
  }

  lemma {:induction false} ConcatAppend(a: seq<string>, b: seq<string>)
    ensures Concat(a + b) == Concat(a) + Concat(b)
  {
    if a == [] {
      assert a + b == b;
    } else {
      assert (a + b)[1..] == a[1..] + b;
      ConcatAppend(a[1..], b);
    }
  }

  /** The wrapped pieces have 1..32 characters each and together spell the lines, in order. */
  lemma {:induction false} WrapLinesShape(lines: seq<string>)
    ensures forall i :: 0 <= i < |WrapLines(lines)| ==> 1 <= |WrapLines(lines)[i]| <= ChunkWidth
    ensures Concat(WrapLines(lines)) == Concat(lines)
  {
    if lines != [] {
      var init, last := lines[..|lines| - 1], lines[|lines| - 1];
      WrapLinesShape(init);
      ChunksShape(last);
      ConcatAppend(WrapLines(init), Chunks(last));
      assert init + [last] == lines;
      ConcatAppend(init, [last]);
      assert Concat([last]) == last + Concat([]);
      var w := WrapLines(lines);
      assert forall i :: |WrapLines(init)| <= i < |w| ==> w[i] == Chunks(last)[i - |WrapLines(init)|];
    }
  }

  /** The lines of the speech bubble: the wrapped pieces, or a single space when there are none. */
  function BubbleLines(lines: seq<string>): (r: seq<string>)
    ensures r != []
    ensures (exists i :: 0 <= i < |lines| && lines[i] != "") ==> r == WrapLines(lines)
    ensures (forall i :: 0 <= i < |lines| ==> lines[i] == "") ==> r == [" "]
  {
    WrapLinesEmpty(lines);
    var w := WrapLines(lines);
    if w == [] then [" "] else w
  }

  /** Wrapping gives no piece at all exactly when every line is empty. */
  lemma {:induction false} WrapLinesEmpty(lines: seq<string>)
    ensures WrapLines(lines) == [] <==> forall i :: 0 <= i < |lines| ==> lines[i] == ""
  {
    if lines != [] {
      var init, last := lines[..|lines| - 1], lines[|lines| - 1];
      WrapLinesEmpty(init);
      assert Chunks(last) == [] <==> last == "" by {
        if |last| > ChunkWidth {
          assert |Chunks(last)| >= 1;
        }
      }
      assert forall i :: 0 <= i < |init| ==> init[i] == lines[i];
    }
  }

  /** Only an empty list of lines falls back to the single space, since every trimmed line has text. */
  lemma FallbackOnlyWhenEmpty(pieces: seq<string>)
    ensures BubbleLines(NonEmptyTrimmed(pieces)) == [" "] <==> NonEmptyTrimmed(pieces) == []
  {
    var lines := NonEmptyTrimmed(pieces);
    if lines != [] {
      var init, last := lines[..|lines| - 1], lines[|lines| - 1];
      assert last != [] && Trimmed(last);
      assert WrapLines(lines) == WrapLines(init) + Chunks(last);
      if |last| > ChunkWidth {
        assert |Chunks(last[ChunkWidth..])| >= 1;
        assert |Chunks(last)| >= 2;
      } else {
        assert Chunks(last) == [last];
        assert IsSpace(" "[0]);
        assert last != " ";
      }
      assert |Chunks(last)| >= 1;
      if WrapLines(init) == [] {
        assert WrapLines(lines) == Chunks(last);
      } else {
        assert |WrapLines(lines)| >= 2;
      }
      assert WrapLines(lines) != [] && WrapLines(lines) != [" "];
    }
  }

  /** The bubble text of a quoted message. */
  function StickerLines(quoted: string): (r: seq<string>)
    ensures r != []
    ensures forall i :: 0 <= i < |r| ==> 1 <= |r[i]| <= ChunkWidth
  {
    WrapLinesShape(NonEmptyTrimmed(LinePieces(EscapeHtml(quoted))));
    BubbleLines(NonEmptyTrimmed(LinePieces(EscapeHtml(quoted))))
  }

  /** The characters of `s` other than white space: what the line handling of the bubble must keep. */
  function Visible(s: string): string {
    if s == [] then [] else (if IsSpace(s[0]) then [] else [s[0]]) + Visible(s[1..])
  }

  lemma {:induction false} VisibleAppend(a: string, b: string)
    ensures Visible(a + b) == Visible(a) + Visible(b)
  {
    if a == [] {
      assert a + b == b;
    } else {
      assert (a + b)[1..] == a[1..] + b;
      VisibleAppend(a[1..], b);
    }
  }

  lemma {:induction false} VisibleOfSpaces(s: string)
    requires forall k :: 0 <= k < |s| ==> IsSpace(s[k])
    ensures Visible(s) == []
  {
    if s != [] {
      VisibleOfSpaces(s[1..]);
    }
  }

  /** Trimming removes only white space. */
  lemma VisibleTrim(s: string)
    ensures Visible(Trim(s)) == Visible(s)
  {
    var i, j := TrimSlice(s);
    assert s == s[..i] + s[i..j] + s[j..];
    VisibleAppend(s[..i] + s[i..j], s[j..]);
    VisibleAppend(s[..i], s[i..j]);
    VisibleOfSpaces(s[..i]);
    VisibleOfSpaces(s[j..]);
  }

  /** Lists whose parts agree on their visible characters agree once concatenated. */
  lemma {:induction false} VisibleConcat(xs: seq<string>, ys: seq<string>)
    requires |xs| == |ys|
    requires forall i :: 0 <= i < |xs| ==> Visible(xs[i]) == Visible(ys[i])
    ensures Visible(Concat(xs)) == Visible(Concat(ys))
  {
    if xs != [] {
      VisibleConcat(xs[1..], ys[1..]);
      VisibleAppend(xs[0], Concat(xs[1..]));
      VisibleAppend(ys[0], Concat(ys[1..]));
    }
  }

  /** Joining with a white-space separator adds nothing visible. */
  lemma {:induction false} VisibleJoin(parts: seq<string>, sep: char)
    requires |parts| >= 1 && IsSpace(sep)
    ensures Visible(Join(parts, sep)) == Visible(Concat(parts))
  {
    if |parts| > 1 {
      var rest := parts[1..];
      VisibleJoin(rest, sep);
      VisibleAppend(parts[0] + [sep], Join(rest, sep));
      VisibleAppend(parts[0], [sep]);
      VisibleAppend(parts[0], Concat(rest));
      assert Visible([sep]) == [];
    } else {
      assert parts[1..] == [];
      assert Concat(parts) == parts[0] + Concat([]) == parts[0];
    }
  }

  /** The line split drops only line feeds and carriage returns. */
  lemma LinePiecesVisible(s: string)
    ensures Visible(Concat(LinePieces(s))) == Visible(s)
  {
    var parts, r := Split(s, '\n'), LinePieces(s);
    forall i | 0 <= i < |r|
      ensures Visible(r[i]) == Visible(parts[i])
    {
      var p := parts[i];
      if r[i] != p {
        assert p == r[i] + [p[|p| - 1]] && IsSpace(p[|p| - 1]);
        VisibleAppend(r[i], [p[|p| - 1]]);
      }
    }
    VisibleConcat(r, parts);
    VisibleJoin(parts, '\n');
    JoinSplit(s, '\n');
  }

  /** Dropping blank lines and trimming the rest drops only white space. */
  lemma {:induction false} NonEmptyTrimmedVisible(pieces: seq<string>)
    ensures Visible(Concat(NonEmptyTrimmed(pieces))) == Visible(Concat(pieces))
  {
    if pieces != [] {
      var t := Trim(pieces[0]);
      var head := if t == [] then [] else [t];
      NonEmptyTrimmedVisible(pieces[1..]);
      ConcatAppend(head, NonEmptyTrimmed(pieces[1..]));
      VisibleAppend(Concat(head), Concat(NonEmptyTrimmed(pieces[1..])));
      VisibleAppend(pieces[0], Concat(pieces[1..]));
      VisibleTrim(pieces[0]);
      assert Concat(head) == t by {
        if t != [] {
          assert Concat(head) == t + Concat([]);
        }
      }
    }
  }

  /** The bubble shows the visible characters of its lines, in order, and no others. */
  lemma BubbleVisible(lines: seq<string>)
    ensures Visible(Concat(BubbleLines(lines))) == Visible(Concat(lines))
  {
    WrapLinesShape(lines);
    if WrapLines(lines) == [] {
      assert Concat([" "]) == " " + Concat([]);
      assert Visible(" ") == [] by { assert IsSpace(" "[0]); }
    }
  }

  /**
   The sticker keeps the quoted text: the bubble's lines, put back together,
   hold exactly the non-white-space characters of the escaped text, in order.
   */
  lemma StickerKeepsText(quoted: string)
    ensures Visible(Concat(StickerLines(quoted))) == Visible(EscapeHtml(quoted))
  {
    var e := EscapeHtml(quoted);
    BubbleVisible(NonEmptyTrimmed(LinePieces(e)));
    NonEmptyTrimmedVisible(LinePieces(e));
    LinePiecesVisible(e);
  }

  /** The source's loop: each line is sliced by 32 while longer, its remainder pushed if any. */
  method ChunkLines(lines: seq<string>) returns (wrapped: seq<string>)
    ensures wrapped == BubbleLines(lines)
  {
    wrapped := [];
    for i := 0 to |lines|
      invariant wrapped == WrapLines(lines[..i])
    {
      var l := lines[i];
      while |l| > ChunkWidth
        invariant wrapped + Chunks(l) == WrapLines(lines[..i]) + Chunks(lines[i])
        decreases |l|
      {
        wrapped := wrapped + [l[..ChunkWidth]];
        l := l[ChunkWidth..];
      }
      if l != [] {
        wrapped := wrapped + [l];
      }
      assert lines[..i + 1][..i] == lines[..i];
    }
    assert lines[..|lines|] == lines;
    if wrapped == [] {
      wrapped := [" "];
    }
  }

  /** What `wrapText` pushes from `words`, given the line built so far and the lines pushed so far. */
  function WrapWords(words: seq<string>, maxLen: int, line: string, lines: seq<string>): (r: seq<string>)
    ensures |lines| <= |r| && r[..|lines|] == lines
    decreases |words|
  {
    if words == [] then (if line != "" then lines + [line] else lines)
    else
      var w := words[0];
      var candidate := line + (if line != "" then " " else "") + w;
      if |candidate| > maxLen then WrapWords(words[1..], maxLen, w, if line != "" then lines + [line] else lines)
      else WrapWords(words[1..], maxLen, candidate, lines)
  }

  /** `wrapText(text, maxLen)`, specified. */
  function WrapTextSpec(text: string, maxLen: int): (r: seq<string>)
    ensures text == "" ==> r == []
    ensures text != "" && ' ' !in text ==> r == [text]
  {
    if ' ' !in text then
      SplitWithoutSeparator(text, ' ');
      assert [text][1..] == [] && "" + "" + text == text;
      assert WrapWords([text], maxLen, "", []) == WrapWords([], maxLen, text, []);
      WrapWords(Split(text, ' '), maxLen, "", [])
    else WrapWords(Split(text, ' '), maxLen, "", [])
  }

  /** A name line: not empty, and within the width unless it is a single over-long word. */
  predicate GoodLine(l: string, maxLen: int) {
    l != "" && (|l| <= maxLen || ' ' !in l)
  }

  lemma {:induction false} WrapWordsShape(words: seq<string>, maxLen: int, line: string, lines: seq<string>)
    requires forall i :: 0 <= i < |words| ==> ' ' !in words[i]
    requires line == "" || GoodLine(line, maxLen)
    requires forall i :: 0 <= i < |lines| ==> GoodLine(lines[i], maxLen)
    ensures forall i :: 0 <= i < |WrapWords(words, maxLen, line, lines)| ==> GoodLine(WrapWords(words, maxLen, line, lines)[i], maxLen)
    decreases |words|
  {
    if words != [] {
      var w := words[0];
      var candidate := line + (if line != "" then " " else "") + w;
      var pushed := if line != "" then lines + [line] else lines;
      var tail := words[1..];
      assert forall i :: 0 <= i < |tail| ==> tail[i] == words[i + 1];
      if |candidate| > maxLen {
        assert w == "" || GoodLine(w, maxLen);
        WrapWordsShape(tail, maxLen, w, pushed);
      } else {
        WrapWordsShape(tail, maxLen, candidate, lines);
      }
    }
  }

  /** Every line of the wrapped name has text and fits, unless it is one word too long to fit. */
  lemma WrapTextShape(text: string, maxLen: int)
    ensures forall i :: 0 <= i < |WrapTextSpec(text, maxLen)| ==> GoodLine(WrapTextSpec(text, maxLen)[i], maxLen)
  {
    WrapWordsShape(Split(text, ' '), maxLen, "", []);
  }

  /** A text with its spaces taken out: what word wrapping must neither lose nor add. */
  function Letters(s: string): string {
    if s == [] then [] else (if s[0] == ' ' then [] else [s[0]]) + Letters(s[1..])
  }

  /** Joining with spaces and concatenating leave the same letters. */
  lemma {:induction false} JoinLetters(parts: seq<string>)
    requires |parts| >= 1
    ensures Letters(Join(parts, ' ')) == Letters(Concat(parts))
  {
    if |parts| > 1 {
      var rest := parts[1..];
      JoinLetters(rest);
      LettersAppend(parts[0] + [' '], Join(rest, ' '));
      LettersAppend(parts[0], [' ']);
      LettersAppend(parts[0], Concat(rest));
      assert Letters([' ']) == [];
    } else {
      assert parts[1..] == [];
      assert Concat(parts) == parts[0] + Concat([]) == parts[0];
      assert Join(parts, ' ') == parts[0];
    }
  }

  lemma {:induction false} LettersAppend(a: string, b: string)
    ensures Letters(a + b) == Letters(a) + Letters(b)
  {
    if a == [] {
      assert a + b == b;
    } else {
      assert (a + b)[1..] == a[1..] + b;
      LettersAppend(a[1..], b);
    }
  }

  /** Closing a line moves its letters, and only them, into the finished lines. */
  lemma PushLetters(line: string, lines: seq<string>)
    ensures Letters(Concat(if line != "" then lines + [line] else lines)) == Letters(Concat(lines)) + Letters(line)
  {
    if line != "" {
      ConcatAppend(lines, [line]);
      assert [line][1..] == [];
      assert Concat([line]) == line + Concat([]) == line;
      LettersAppend(Concat(lines), line);
    } else {
      assert Letters(line) == [];
      assert Letters(Concat(lines)) + [] == Letters(Concat(lines));
    }
  }

  /** Extending a line by a word adds the word's letters and nothing else. */
  lemma ExtendLetters(line: string, w: string)
    ensures Letters(line + (if line != "" then " " else "") + w) == Letters(line) + Letters(w)
  {
    var sp := if line != "" then " " else "";
    LettersAppend(line, sp);
    LettersAppend(line + sp, w);
    assert Letters(sp) == [] by {
      if line != "" {
        assert sp == [' '];
      }
    }
  }

  lemma Regroup(a: string, b: string, c: string, d: string)
    ensures a + (b + c) + d == a + b + (c + d) == (a + b) + c + d
  {
  }

  lemma {:induction false} WrapWordsLetters(words: seq<string>, maxLen: int, line: string, lines: seq<string>)
    ensures Letters(Concat(WrapWords(words, maxLen, line, lines)))
         == Letters(Concat(lines)) + Letters(line) + Letters(Concat(words))
    decreases |words|
  {
    var pushed := if line != "" then lines + [line] else lines;
    PushLetters(line, lines);
    if words == [] {
      assert WrapWords(words, maxLen, line, lines) == pushed;
      assert Letters(Concat(words)) == [];
    } else {
      var w := words[0];
      var tail := words[1..];
      var candidate := line + (if line != "" then " " else "") + w;
      var lw, lt := Letters(w), Letters(Concat(tail));
      assert Concat(words) == w + Concat(tail);
      LettersAppend(w, Concat(tail));
      assert Letters(Concat(words)) == lw + lt;
      if |candidate| > maxLen {
        var rest := WrapWords(tail, maxLen, w, pushed);
        assert WrapWords(words, maxLen, line, lines) == rest;
        WrapWordsLetters(tail, maxLen, w, pushed);
        assert Letters(Concat(rest)) == Letters(Concat(pushed)) + lw + lt;
        Regroup(Letters(Concat(lines)), Letters(line), lw, lt);
      } else {
        var rest := WrapWords(tail, maxLen, candidate, lines);
        assert WrapWords(words, maxLen, line, lines) == rest;
        WrapWordsLetters(tail, maxLen, candidate, lines);
        ExtendLetters(line, w);
        assert Letters(Concat(rest)) == Letters(Concat(lines)) + (Letters(line) + lw) + lt;
        Regroup(Letters(Concat(lines)), Letters(line), lw, lt);
      }
    }
  }

  /**
   Wrapping keeps the name: the lines, put back together, hold exactly the
   characters of the name other than spaces, in their order.
   */
  lemma WrapTextLetters(text: string, maxLen: int)
    ensures Letters(Concat(WrapTextSpec(text, maxLen))) == Letters(text)
  {
    WrapWordsLetters(Split(text, ' '), maxLen, "", []);
    JoinSplit(text, ' ');
    JoinLetters(Split(text, ' '));
  }

  /** The lines finished so far with the current line closed, if it holds anything. */
  function Closed(line: string, lines: seq<string>): seq<string> {
    if line != "" then lines + [line] else lines
  }

  /** Starting a new line with `w` leaves the words in their order. */
  lemma ClosedShift(line: string, lines: seq<string>, w: string, tail: seq<string>)
    requires w != ""
    ensures Closed(w, Closed(line, lines)) + tail == Closed(line, lines) + ([w] + tail)
  {
  }

  /** Adding `w` to a non-empty line with a space joins to the same text as keeping it apart. */
  lemma ClosedExtend(line: string, lines: seq<string>, w: string, tail: seq<string>)
    requires line != ""
    ensures Join(Closed(line + " " + w, lines) + tail, ' ') == Join(Closed(line, lines) + ([w] + tail), ' ')
  {
    assert line + " " + w == line + [' '] + w;
    JoinMerge(lines, line, w, tail, ' ');
    assert Closed(line + " " + w, lines) + tail == lines + [line + [' '] + w] + tail;
    assert Closed(line, lines) + ([w] + tail) == lines + [line, w] + tail;
  }

  lemma {:induction false} WrapWordsJoin(words: seq<string>, maxLen: int, line: string, lines: seq<string>)
    requires forall i :: 0 <= i < |words| ==> words[i] != ""
    requires line == "" ==> lines == []
    requires Closed(line, lines) + words != []
    ensures WrapWords(words, maxLen, line, lines) != []
    ensures Join(WrapWords(words, maxLen, line, lines), ' ') == Join(Closed(line, lines) + words, ' ')
    decreases |words|
  {
    if words == [] {
      assert Closed(line, lines) + words == Closed(line, lines);
    } else {
      var w, tail := words[0], words[1..];
      assert words == [w] + tail;
      var candidate := line + (if line != "" then " " else "") + w;
      assert forall i :: 0 <= i < |tail| ==> tail[i] == words[i + 1];
      if |candidate| > maxLen {
        assert WrapWords(words, maxLen, line, lines) == WrapWords(tail, maxLen, w, Closed(line, lines));
        WrapWordsJoin(tail, maxLen, w, Closed(line, lines));
        ClosedShift(line, lines, w, tail);
      } else if line == "" {
        assert candidate == w;
        assert WrapWords(words, maxLen, line, lines) == WrapWords(tail, maxLen, w, lines);
        WrapWordsJoin(tail, maxLen, w, lines);
        assert Closed(w, lines) + tail == words == Closed(line, lines) + words;
      } else {
        assert candidate == line + " " + w;
        assert WrapWords(words, maxLen, line, lines) == WrapWords(tail, maxLen, candidate, lines);
        WrapWordsJoin(tail, maxLen, candidate, lines);
        ClosedExtend(line, lines, w, tail);
      }
    }
  }

  /**
   A name whose words are separated by single spaces, with none before or
   after, is recovered by joining its lines with spaces: the wrap only
   turns some spaces into line breaks.
   */
  lemma WrapTextJoin(text: string, maxLen: int)
    requires forall i :: 0 <= i < |Split(text, ' ')| ==> Split(text, ' ')[i] != ""
    ensures WrapTextSpec(text, maxLen) != []
    ensures Join(WrapTextSpec(text, maxLen), ' ') == text
  {
    var words := Split(text, ' ');
    WrapWordsJoin(words, maxLen, "", []);
    assert Closed("", []) + words == words;
    JoinSplit(text, ' ');
  }

  /** `wrapText` as the source writes it: a loop over the space-separated words. */
  method WrapText(text: string, maxLen: int) returns (lines: seq<string>)
    ensures lines == WrapTextSpec(text, maxLen)
  {
    var words := Split(text, ' ');
    lines := [];
    var line := "";
    for i := 0 to |words|
      invariant WrapWords(words[i..], maxLen, line, lines) == WrapTextSpec(text, maxLen)
    {
      var word := words[i];
      assert words[i..][1..] == words[i + 1..];
      if |line + (if line != "" then " " else "") + word| > maxLen {
        if line != "" {
          lines := lines + [line];
        }
        line := word;
      } else {
        line := line + (if line != "" then " " else "") + word;
      }
    }
    if line != "" {
      lines := lines + [line];
    }
  }

  /** The name shown above the bubble: `pushname || name || number || 'Kullanıcı'`. */
  function PushName(contact: Option<(string, string, string)>): (r: string)
    ensures r != ""
    ensures contact.Some? && contact.value.0 != "" ==> r == contact.value.0
    ensures contact.Some? && contact.value.0 == "" && contact.value.1 != "" ==> r == contact.value.1
    ensures contact.Some? && contact.value.0 == "" && contact.value.1 == "" && contact.value.2 != "" ==> r == contact.value.2
    ensures contact.None? || contact.value == ("", "", "") ==> r == "Kullanıcı"
  {
    match contact
    case None => "Kullanıcı"
    case Some((pushname, name, number)) =>
      if pushname != "" then pushname
      else if name != "" then name
      else if number != "" then number
      else "Kullanıcı"
  }

  const NameWrapWidth: int := 18
}
