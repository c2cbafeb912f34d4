/** Splitting a command template into words, with single quotes, double quotes and
    backslashes. Characters stand for bytes. */
module ShellSplit {
  import opened Seqs
  import opened Wrappers

  datatype Quote = Bare | Single | Double

  /** The state of the splitter between two characters. */
  datatype Split = Split(words: seq<string>, cur: string, started: bool, quote: Quote)

  predicate Blank(c: char) {
    c == ' ' || c == '\t' || c == '\n'
  }

  function Flushed(s: Split): Split {
    if s.started then s.(words := s.words + [s.cur], cur := "", started := false) else s
  }

  function Put(s: Split, c: char): Split {
    s.(cur := s.cur + [c], started := true)
  }

  /** One round of the loop with `t` still to be read: the state after it and how
      many characters it has used. */
  function Step(t: string, s: Split): (r: (Split, nat))
    requires t != ""
    ensures 1 <= r.1 <= 2 && r.1 <= |t|
  {
    var c := t[0];
    match s.quote
    case Single => if c == '\'' then (s.(quote := Bare), 1) else (s.(cur := s.cur + [c]), 1)
    case Double =>
      if c == '\\' && |t| > 1 then (s.(cur := s.cur + [t[1]]), 2)
      else if c == '"' then (s.(quote := Bare), 1)
      else (s.(cur := s.cur + [c]), 1)
    case Bare =>
      if Blank(c) then (Flushed(s), 1)
      else if c == '\'' then (s.(quote := Single, started := true), 1)
      else if c == '"' then (s.(quote := Double, started := true), 1)
      else if c == '\\' then (if |t| > 1 then (Put(s, t[1]), 2) else (s, 1))
      else (Put(s, c), 1)
  }

  function Scan(t: string, s: Split): Split {
    if t == "" then s else var (s', n) := Step(t, s); Scan(t[n..], s')
  }

  const EMPTY := Split([], "", false, Bare)

  function Result(s: Split): Option<seq<string>> {
    if s.quote != Bare then None else Some(Flushed(s).words)
  }

  /** The words of a template; `None` for an unterminated quote. */
  function Words(t: string): Option<seq<string>> {
    Result(Scan(t, EMPTY))
  }

  method Splitted(t: string) returns (r: Option<seq<string>>)
    ensures r == Words(t)
  {
    var out: seq<string>, cur, started, inSingle, inDouble := [], "", false, false, false;
    ghost var st := EMPTY;
    var i := 0;
    while i < |t|
      invariant 0 <= i <= |t| && !(inSingle && inDouble)
      invariant st == Split(out, cur, started, if inSingle then Single else if inDouble then Double else Bare)
      invariant Scan(t, EMPTY) == Scan(t[i..], st)
      decreases |t| - i
    {
      ghost var (st', n) := Step(t[i..], st);
      assert t[i..][n..] == t[i + n..];
      var c := t[i];
      if inSingle {
        if c == '\'' {
          inSingle := false;
        } else {
          cur := cur + [c];
        }
      } else if inDouble {
        if c == '\\' && i + 1 < |t| {
          cur := cur + [t[i + 1]];
          i := i + 1;
        } else if c == '"' {
          inDouble := false;
        } else {
          cur := cur + [c];
        }
      } else if Blank(c) {
        if started {
          out, cur, started := out + [cur], "", false;
        }
      } else if c == '\'' {
        inSingle, started := true, true;
      } else if c == '"' {
        inDouble, started := true, true;
      } else if c == '\\' {
        if i + 1 < |t| {
          cur := cur + [t[i + 1]];
          i := i + 1;
          started := true;
        }
      } else {
        cur, started := cur + [c], true;
      }
      i := i + 1;
      st := st';
    }
    if inSingle || inDouble {
      return None;
    }
    if started {
      out := out + [cur];
    }
    return Some(out);
  }

  // ------------------------------------------------------ when a quote is unterminated

  /** An automaton that reads one character at a time: where in a template one is. */
  datatype Mode = Out | Escaped | InSingle | InDouble | DoubleEscaped

  function Next(m: Mode, c: char): Mode {
    match m
    case Out => if c == '\'' then InSingle else if c == '"' then InDouble else if c == '\\' then Escaped else Out
    case Escaped => Out
    case InSingle => if c == '\'' then Out else InSingle
    case InDouble => if c == '"' then Out else if c == '\\' then DoubleEscaped else InDouble
    case DoubleEscaped => InDouble
  }

  function ModeAfter(m: Mode, t: string): Mode
    decreases |t|
  {
    if t == "" then m else ModeAfter(Next(m, t[0]), t[1..])
  }

  function ModeOf(q: Quote): Mode {
    match q case Bare => Out case Single => InSingle case Double => InDouble
  }

  lemma {:induction false} ScanFollowsModes(t: string, s: Split)
    ensures Scan(t, s).quote != Bare <==>
            ModeAfter(ModeOf(s.quote), t) != Out && ModeAfter(ModeOf(s.quote), t) != Escaped
    decreases |t|
  {
    if t != "" {
      var (s', n) := Step(t, s);
      if n == 2 {
        assert t[1..][1..] == t[2..];
      }
      ScanFollowsModes(t[n..], s');
    }
  }

  /** Splitting fails exactly when the template ends inside a quote. */
  lemma FailsExactlyInsideQuote(t: string)
    ensures Words(t).None? <==>
            var m := ModeAfter(Out, t); m == InSingle || m == InDouble || m == DoubleEscaped
  {
    ScanFollowsModes(t, EMPTY);
  }

  // -------------------------------------------------------------- spellings of words

  /** The ways to spell a part of a word: a plain character, any character behind a
      backslash, characters in single quotes, and characters in double quotes, each
      of which may have a backslash before it. */
  datatype Piece =
    | Plain(c: char)
    | Escape(c: char)
    | Quoted(s: string)
    | DoubleQuoted(cs: seq<(bool, char)>)

  predicate ValidPiece(p: Piece) {
    match p
    case Plain(c) => !Blank(c) && c != '\'' && c != '"' && c != '\\'
    case Escape(_) => true
    case Quoted(s) => forall i :: 0 <= i < |s| ==> s[i] != '\''
    case DoubleQuoted(cs) => forall i :: 0 <= i < |cs| ==> cs[i].0 || (cs[i].1 != '"' && cs[i].1 != '\\')
  }

  function Marked(c: (bool, char)): string {
    if c.0 then ['\\', c.1] else [c.1]
  }

  function Inside(cs: seq<(bool, char)>): string {
    if cs == [] then "" else Marked(cs[0]) + Inside(cs[1..])
  }

  function InsideValue(cs: seq<(bool, char)>): string {
    if cs == [] then "" else [cs[0].1] + InsideValue(cs[1..])
  }

  function PieceText(p: Piece): string {
    match p
    case Plain(c) => [c]
    case Escape(c) => ['\\', c]
    case Quoted(s) => "'" + s + "'"
    case DoubleQuoted(cs) => "\"" + Inside(cs) + "\""
  }

  function PieceValue(p: Piece): string {
    match p
    case Plain(c) => [c]
    case Escape(c) => [c]
    case Quoted(s) => s
    case DoubleQuoted(cs) => InsideValue(cs)
  }

  function Text(ps: seq<Piece>): string {
    if ps == [] then "" else PieceText(ps[0]) + Text(ps[1..])
  }

  function Value(ps: seq<Piece>): string {
    if ps == [] then "" else PieceValue(ps[0]) + Value(ps[1..])
  }

  /** A word spelled by at least one piece, and the blanks after it. */
  datatype Spelled = Spelled(pieces: seq<Piece>, gap: string)

  predicate ValidSpelling(w: Spelled) {
    && w.pieces != []
    && (forall i :: 0 <= i < |w.pieces| ==> ValidPiece(w.pieces[i]))
    && (forall i :: 0 <= i < |w.gap| ==> Blank(w.gap[i]))
  }

  /** Words are separated by blanks; the last may have none after it. */
  predicate ValidLine(ws: seq<Spelled>) {
    && (forall i :: 0 <= i < |ws| ==> ValidSpelling(ws[i]))
    && (forall i :: 0 <= i < |ws| - 1 ==> ws[i].gap != "")
  }

  function Line(ws: seq<Spelled>): string {
    if ws == [] then "" else Text(ws[0].pieces) + (ws[0].gap + Line(ws[1..]))
  }

  function Values(ws: seq<Spelled>): (r: seq<string>)
    ensures |r| == |ws|
  {
    if ws == [] then [] else [Value(ws[0].pieces)] + Values(ws[1..])
  }

  lemma {:induction false} ScanQuoted(x: string, rest: string, s: Split)
    requires s.quote == Single && forall k :: 0 <= k < |x| ==> x[k] != '\''
    ensures Scan(x + rest, s) == Scan(rest, s.(cur := s.cur + x))
    decreases |x|
  {
    if x == "" {
      assert x + rest == rest && s.cur + x == s.cur;
    } else {
      assert (x + rest)[1..] == x[1..] + rest;
      ScanQuoted(x[1..], rest, s.(cur := s.cur + [x[0]]));
      assert s.cur + [x[0]] + x[1..] == s.cur + x;
    }
  }

  lemma ScanMarked(c: (bool, char), rest: string, s: Split)
    requires s.quote == Double && ValidPiece(DoubleQuoted([c]))
    ensures Scan(Marked(c) + rest, s) == Scan(rest, s.(cur := s.cur + [c.1]))
  {
    assert [c][0] == c;
    assert (Marked(c) + rest)[|Marked(c)|..] == rest;
    assert Step(Marked(c) + rest, s) == (s.(cur := s.cur + [c.1]), |Marked(c)|);
  }

  lemma {:induction false} ScanInside(cs: seq<(bool, char)>, rest: string, s: Split)
    requires s.quote == Double && ValidPiece(DoubleQuoted(cs))
    ensures Scan(Inside(cs) + rest, s) == Scan(rest, s.(cur := s.cur + InsideValue(cs)))
    decreases |cs|
  {
    if cs == [] {
      assert "" + rest == rest && s.cur + "" == s.cur;
    } else {
      Regroup(Marked(cs[0]), Inside(cs[1..]), rest);
      ScanMarked(cs[0], Inside(cs[1..]) + rest, s);
      ScanInside(cs[1..], rest, s.(cur := s.cur + [cs[0].1]));
      Regroup(s.cur, [cs[0].1], InsideValue(cs[1..]));
    }
  }

  lemma ScanSingle(x: string, rest: string, s: Split)
    requires s.quote == Bare && forall k :: 0 <= k < |x| ==> x[k] != '\''
    ensures Scan("'" + x + "'" + rest, s) == Scan(rest, s.(cur := s.cur + x, started := true))
  {
    var t := "'" + x + "'" + rest;
    var inside := s.(quote := Single, started := true);
    assert t[1..] == x + ("'" + rest);
    assert Step(t, s) == (inside, 1);
    ScanQuoted(x, "'" + rest, inside);
    assert ("'" + rest)[1..] == rest;
  }

  lemma ScanDouble(cs: seq<(bool, char)>, rest: string, s: Split)
    requires s.quote == Bare && ValidPiece(DoubleQuoted(cs))
    ensures Scan("\"" + Inside(cs) + "\"" + rest, s) ==
            Scan(rest, s.(cur := s.cur + InsideValue(cs), started := true))
  {
    var t := "\"" + Inside(cs) + "\"" + rest;
    var inside := s.(quote := Double, started := true);
    assert t[1..] == Inside(cs) + ("\"" + rest);
    assert Step(t, s) == (inside, 1);
    ScanInside(cs, "\"" + rest, inside);
    assert ("\"" + rest)[1..] == rest;
  }

  lemma ScanPiece(p: Piece, rest: string, s: Split)
    requires s.quote == Bare && ValidPiece(p)
    ensures Scan(PieceText(p) + rest, s) == Scan(rest, s.(cur := s.cur + PieceValue(p), started := true))
  {
    match p {
      case Plain(c) => assert ([c] + rest)[1..] == rest;
      case Escape(c) => assert (['\\', c] + rest)[2..] == rest;
      case Quoted(x) => ScanSingle(x, rest, s);
      case DoubleQuoted(cs) => ScanDouble(cs, rest, s);
    }
  }

  lemma {:induction false} ScanPieces(ps: seq<Piece>, rest: string, s: Split)
    requires s.quote == Bare && (ps == [] ==> s.started)
    requires forall k :: 0 <= k < |ps| ==> ValidPiece(ps[k])
    ensures Scan(Text(ps) + rest, s) == Scan(rest, s.(cur := s.cur + Value(ps), started := true))
    decreases |ps|
  {
    if ps == [] {
      assert "" + rest == rest && s.cur + "" == s.cur;
    } else {
      Regroup(PieceText(ps[0]), Text(ps[1..]), rest);
      ScanPiece(ps[0], Text(ps[1..]) + rest, s);
      var value := PieceValue(ps[0]);
      ScanPieces(ps[1..], rest, s.(cur := s.cur + value, started := true));
      Regroup(s.cur, value, Value(ps[1..]));
    }
  }

  lemma {:induction false} ScanBlanks(x: string, rest: string, s: Split)
    requires s.quote == Bare && forall k :: 0 <= k < |x| ==> Blank(x[k])
    ensures Scan(x + rest, s) == Scan(rest, if x == "" then s else Flushed(s))
    decreases |x|
  {
    if x == "" {
      assert x + rest == rest;
    } else {
      assert (x + rest)[1..] == x[1..] + rest;
      ScanBlanks(x[1..], rest, Flushed(s));
    }
  }

  lemma {:induction false} ScanLine(ws: seq<Spelled>, out: seq<string>)
    requires ValidLine(ws)
    ensures Result(Scan(Line(ws), Split(out, "", false, Bare))) == Some(out + Values(ws))
    decreases |ws|
  {
    if ws == [] {
      assert out + [] == out;
    } else {
      var w, rest := ws[0], Line(ws[1..]);
      var value := Value(w.pieces);
      ScanPieces(w.pieces, w.gap + rest, Split(out, "", false, Bare));
      assert "" + value == value;
      ScanBlanks(w.gap, rest, Split(out, value, true, Bare));
      Regroup(out, [value], Values(ws[1..]));
      if w.gap == "" {
        assert ws[1..] == [];
        assert out + [value] + [] == out + [value];
      } else {
        ScanLine(ws[1..], out + [value]);
      }
    }
  }

  /** However words are spelled by the documented rules, and however many blanks
      stand before, between and after them, splitting gives back the words. */
  lemma SplitsEverySpelling(lead: string, ws: seq<Spelled>)
    requires ValidLine(ws) && forall k :: 0 <= k < |lead| ==> Blank(lead[k])
    ensures Words(lead + Line(ws)) == Some(Values(ws))
  {
    ScanBlanks(lead, Line(ws), EMPTY);
    ScanLine(ws, []);
    assert [] + Values(ws) == Values(ws);
  }

  // ----------------------------------------------------------------------- quoting

  /** A word in double quotes, with a backslash before what needs one. */
  function EscapeAll(w: string): (r: seq<(bool, char)>)
    ensures ValidPiece(DoubleQuoted(r)) && InsideValue(r) == w
  {
    if w == "" then [] else [(w[0] == '"' || w[0] == '\\', w[0])] + EscapeAll(w[1..])
  }

  function Quote1(w: string): string {
    PieceText(DoubleQuoted(EscapeAll(w)))
  }

  /** Quoted words, joined by single spaces. */
  function Join(ws: seq<string>): string {
    if ws == [] then "" else if |ws| == 1 then Quote1(ws[0]) else Quote1(ws[0]) + " " + Join(ws[1..])
  }

  function Spellings(ws: seq<string>): (r: seq<Spelled>)
    ensures |r| == |ws|
  {
    if ws == [] then []
    else [Spelled([DoubleQuoted(EscapeAll(ws[0]))], if |ws| == 1 then "" else " ")] + Spellings(ws[1..])
  }

  lemma OneQuoted(w: string)
    ensures var ps := [DoubleQuoted(EscapeAll(w))]; Text(ps) == Quote1(w) && Value(ps) == w
  {
    var p := DoubleQuoted(EscapeAll(w));
    assert [p][1..] == [];
    assert PieceText(p) + "" == PieceText(p) && PieceValue(p) + "" == PieceValue(p);
  }

  lemma {:induction false} SpellingsAreValid(ws: seq<string>)
    ensures ValidLine(Spellings(ws)) && Values(Spellings(ws)) == ws
  {
    if ws != [] {
      SpellingsAreValid(ws[1..]);
      assert Spellings(ws)[1..] == Spellings(ws[1..]);
      OneQuoted(ws[0]);
    }
  }

  lemma {:induction false} SpellingsLine(ws: seq<string>)
    ensures Line(Spellings(ws)) == Join(ws)
  {
    if ws != [] {
      SpellingsLine(ws[1..]);
      assert Spellings(ws)[1..] == Spellings(ws[1..]);
      OneQuoted(ws[0]);
      Regroup(Quote1(ws[0]), " ", Join(ws[1..]));
    }
  }

  /** Splitting inverts quoting, whatever the words contain. */
  lemma SplitInvertsQuoting(ws: seq<string>)
    ensures Words(Join(ws)) == Some(ws)
  {
    SpellingsAreValid(ws);
    SpellingsLine(ws);
    SplitsEverySpelling("", Spellings(ws));
    assert "" + Join(ws) == Join(ws);
  }
}
