/** The `{token}` placeholders of a recording command: the scanner that validates
    them when a template is parsed and the one that fills them in. */
module TemplateBraces {
  import opened Seqs
  import opened Wrappers
  import ShellSplit

  predicate NameStart(c: char) {
    'a' <= c <= 'z' || 'A' <= c <= 'Z' || c == '_'
  }

  predicate ValidName(s: string) {
    s != "" && NameStart(s[0]) && forall i :: 0 < i < |s| ==> NameStart(s[i]) || '0' <= s[i] <= '9'
  }

  method IsValidTokenName(s: string) returns (ok: bool)
    ensures ok == ValidName(s)
  {
    if |s| == 0 {
      return false;
    }
    for i := 0 to |s|
      invariant i > 0 ==> NameStart(s[0])
      invariant forall k :: 0 < k < i ==> NameStart(s[k]) || '0' <= s[k] <= '9'
    {
      var alpha := NameStart(s[i]);
      var digit := '0' <= s[i] <= '9';
      if i == 0 && !alpha {
        return false;
      }
      if i > 0 && !alpha && !digit {
        return false;
      }
    }
    return true;
  }

  /** The place of the first closing brace from `i` on; the length if there is none. */
  function NextClose(s: string, i: nat): (j: nat)
    requires i <= |s|
    ensures i <= j <= |s|
    ensures j < |s| ==> s[j] == '}'
    ensures forall k :: i <= k < j ==> s[k] != '}'
    decreases |s| - i
  {
    if i == |s| || s[i] == '}' then i else NextClose(s, i + 1)
  }

  // ------------------------------------------------------------ what a token is

  /** A token starts at `p`: an opening brace, a name, and a closing brace. */
  predicate Token(s: string, p: nat) {
    && p < |s| && s[p] == '{'
    && NextClose(s, p + 1) < |s|
    && ValidName(s[p + 1..NextClose(s, p + 1)])
  }

  function Name(s: string, p: nat): string
    requires Token(s, p)
  {
    s[p + 1..NextClose(s, p + 1)]
  }

  function End(s: string, p: nat): (e: nat)
    requires Token(s, p)
    ensures p < e <= |s|
  {
    NextClose(s, p + 1) + 1
  }

  /** No brace opened before `p` is still open there. */
  ghost predicate Clear(s: string, p: nat) {
    p <= |s| && forall q :: 0 <= q < p && s[q] == '{' ==> NextClose(s, q) < p
  }

  /** All tokens from `i` on, found by looking at every place. */
  function Positions(s: string, i: nat): (ps: seq<nat>)
    ensures forall p :: p in ps <==> i <= p && Token(s, p)
    decreases |s| - i
  {
    if i >= |s| then []
    else if Token(s, i) then [i] + Positions(s, i + 1)
    else Positions(s, i + 1)
  }

  ghost predicate Increasing(ps: seq<nat>) {
    forall j, k :: 0 <= j < k < |ps| ==> ps[j] < ps[k]
  }

  lemma {:induction false} PositionsIncrease(s: string, i: nat)
    ensures Increasing(Positions(s, i))
    decreases |s| - i
  {
    if i < |s| {
      PositionsIncrease(s, i + 1);
      var rest := Positions(s, i + 1);
      assert forall k :: 0 <= k < |rest| ==> rest[k] in rest;
    }
  }

  /** Names contain no braces, so no token starts inside another. */
  lemma TokensAreDisjoint(s: string, p: nat, q: nat)
    requires Token(s, p) && p < q < End(s, p)
    ensures !Token(s, q)
  {
    if q < NextClose(s, p + 1) {
      assert Name(s, p)[q - p - 1] == s[q];
    }
  }

  // ------------------------------------------------------------ filling tokens in

  datatype Context = Context(camName: string, quality: string, rtspHost: string, rtspPort: int,
                             output: string, outputDir: string, outputStem: string, segmentSec: int)

  /** What the filling uses of Go's library: upper case, the directory of a path, a
      path without its extension, and decimal notation. */
  datatype Library = Library(upper: string -> string, dir: string -> string, stem: string -> string,
                             decimal: int -> string)

  const KNOWN: set<string> := {"cam_name", "CAM_NAME", "rtsp_url", "rtsp_host", "rtsp_port",
                               "output", "output_dir", "output_stem", "segment_sec", "quality"}

  function Resolve(tok: string, c: Context, lib: Library): (r: Option<string>)
    ensures r.Some? <==> tok in KNOWN
  {
    if tok == "cam_name" then Some(c.camName)
    else if tok == "CAM_NAME" then Some(lib.upper(c.camName))
    else if tok == "rtsp_url" then
      Some("rtsp://" + c.rtspHost + ":" + lib.decimal(c.rtspPort) + "/" + c.camName)
    else if tok == "rtsp_host" then Some(c.rtspHost)
    else if tok == "rtsp_port" then Some(lib.decimal(c.rtspPort))
    else if tok == "output" then Some(c.output)
    else if tok == "output_dir" then Some(if c.outputDir != "" then c.outputDir else lib.dir(c.output))
    else if tok == "output_stem" then Some(if c.outputStem != "" then c.outputStem else lib.stem(c.output))
    else if tok == "segment_sec" then Some(lib.decimal(c.segmentSec))
    else if tok == "quality" then Some(c.quality)
    else None
  }

  /** What stands for the token at `p` in the filled text. */
  function Filling(s: string, p: nat, c: Context, lib: Library): string
    requires Token(s, p)
  {
    match Resolve(Name(s, p), c, lib)
    case Some(v) => v
    case None => s[p..End(s, p)]
  }

  /** The scan of `Substitute` from `i` on. */
  function Substituted(s: string, i: nat, c: Context, lib: Library): string
    decreases |s| - i
  {
    if i >= |s| then ""
    else if Token(s, i) then Filling(s, i, c, lib) + Substituted(s, End(s, i), c, lib)
    else [s[i]] + Substituted(s, i + 1, c, lib)
  }

  method Substitute(s: string, c: Context, lib: Library) returns (b: string)
    ensures b == Substituted(s, 0, c, lib)
  {
    b := "";
    var i := 0;
    while i < |s|
      invariant 0 <= i <= |s| && Substituted(s, 0, c, lib) == b + Substituted(s, i, c, lib)
      decreases |s| - i
    {
      ghost var before := b;
      ghost var more := if Token(s, i) then Filling(s, i, c, lib) else [s[i]];
      ghost var next := if Token(s, i) then End(s, i) else i + 1;
      if s[i] != '{' {
        b, i := b + [s[i]], i + 1;
      } else {
        var end := NextClose(s, i + 1);
        if end == |s| {
          b, i := b + [s[i]], i + 1;
        } else {
          var tok := s[i + 1..end];
          var valid := IsValidTokenName(tok);
          if !valid {
            b, i := b + [s[i]], i + 1;
          } else {
            var v := Resolve(tok, c, lib);
            b := b + (if v.Some? then v.value else s[i..end + 1]);
            i := end + 1;
          }
        }
      }
      assert b == before + more && i == next;
      Regroup(before, more, Substituted(s, i, c, lib));
    }
  }

  /** The tokens of `ps` follow one another from `from` on. */
  predicate Apart(s: string, from: nat, ps: seq<nat>)
    decreases |ps|
  {
    ps == [] || (from <= ps[0] && Token(s, ps[0]) && Apart(s, End(s, ps[0]), ps[1..]))
  }

  /** `s` from `from` on with the tokens at `ps` cut out and their fillings put in. */
  function Patched(s: string, from: nat, ps: seq<nat>, c: Context, lib: Library): string
    requires from <= |s| && Apart(s, from, ps)
    decreases |ps|
  {
    if ps == [] then s[from..]
    else s[from..ps[0]] + (Filling(s, ps[0], c, lib) + Patched(s, End(s, ps[0]), ps[1..], c, lib))
  }

  lemma PatchedStep(s: string, i: nat, ps: seq<nat>, c: Context, lib: Library)
    requires i < |s| && Apart(s, i + 1, ps)
    ensures Apart(s, i, ps) && Patched(s, i, ps, c, lib) == [s[i]] + Patched(s, i + 1, ps, c, lib)
  {
    if ps == [] {
      assert s[i..] == [s[i]] + s[i + 1..];
    } else {
      assert s[i..ps[0]] == [s[i]] + s[i + 1..ps[0]];
      Regroup([s[i]], s[i + 1..ps[0]], Filling(s, ps[0], c, lib) + Patched(s, End(s, ps[0]), ps[1..], c, lib));
    }
  }

  lemma PatchedAtToken(s: string, ps: seq<nat>, c: Context, lib: Library)
    requires ps != [] && Apart(s, ps[0], ps)
    ensures Patched(s, ps[0], ps, c, lib) ==
            Filling(s, ps[0], c, lib) + Patched(s, End(s, ps[0]), ps[1..], c, lib)
  {
    assert s[ps[0]..ps[0]] == "";
    var rest := Filling(s, ps[0], c, lib) + Patched(s, End(s, ps[0]), ps[1..], c, lib);
    assert "" + rest == rest;
  }

  /** After the token at `i` the next one is the next in the list. */
  lemma {:induction false} SkipInside(s: string, i: nat, k: nat)
    requires Token(s, i) && i < k <= End(s, i)
    ensures Positions(s, k) == Positions(s, End(s, i))
    decreases End(s, i) - k
  {
    if k < End(s, i) {
      TokensAreDisjoint(s, i, k);
      SkipInside(s, i, k + 1);
    }
  }

  lemma {:induction false} SubstitutedIsPatched(s: string, i: nat, c: Context, lib: Library)
    requires i <= |s|
    ensures Apart(s, i, Positions(s, i))
    ensures Substituted(s, i, c, lib) == Patched(s, i, Positions(s, i), c, lib)
    decreases |s| - i
  {
    if i == |s| {
      assert Positions(s, i) == [] && s[i..] == "";
    } else if Token(s, i) {
      SkipInside(s, i, i + 1);
      var ps, e := Positions(s, i), End(s, i);
      assert ps[0] == i && ps[1..] == Positions(s, e);
      SubstitutedIsPatched(s, e, c, lib);
      PatchedAtToken(s, ps, c, lib);
    } else {
      SubstitutedIsPatched(s, i + 1, c, lib);
      PatchedStep(s, i, Positions(s, i + 1), c, lib);
    }
  }

  /** Filling in replaces every token there is, at its place, and leaves all else as
      it is. Which places those are does not depend on the values put in, so an
      inserted value is never read again. */
  lemma ReplacesEveryToken(s: string, c: Context, lib: Library)
    ensures Apart(s, 0, Positions(s, 0))
    ensures Substituted(s, 0, c, lib) == Patched(s, 0, Positions(s, 0), c, lib)
  {
    SubstitutedIsPatched(s, 0, c, lib);
  }

  // ------------------------------------------------------------ validating tokens

  /** The places of the tokens the validating scan reports from `i` on. */
  function Reported(s: string, i: nat): (ps: seq<nat>)
    ensures forall p :: p in ps ==> i <= p && Token(s, p)
    decreases |s| - i
  {
    if i >= |s| then []
    else if s[i] != '{' then Reported(s, i + 1)
    else
      var end := NextClose(s, i + 1);
      if end == |s| then []
      else if ValidName(s[i + 1..end]) then [i] + Reported(s, end + 1)
      else Reported(s, end + 1)
  }

  function NamesAt(s: string, ps: seq<nat>): (ns: seq<string>)
    requires forall p :: p in ps ==> Token(s, p)
    ensures |ns| == |ps|
    ensures forall k :: 0 <= k < |ps| ==> ns[k] == Name(s, ps[k])
    decreases |ps|
  {
    if ps == [] then [] else [Name(s, ps[0])] + NamesAt(s, ps[1..])
  }

  /** Their names, as the scan collects them. */
  function Extracted(s: string, i: nat): seq<string>
    decreases |s| - i
  {
    if i >= |s| then []
    else if s[i] != '{' then Extracted(s, i + 1)
    else
      var end := NextClose(s, i + 1);
      if end == |s| then []
      else if ValidName(s[i + 1..end]) then [s[i + 1..end]] + Extracted(s, end + 1)
      else Extracted(s, end + 1)
  }

  lemma NamesCons(s: string, p: nat, ps: seq<nat>)
    requires Token(s, p) && forall k :: k in ps ==> Token(s, k)
    ensures (forall k :: k in [p] + ps ==> Token(s, k)) && NamesAt(s, [p] + ps) == [Name(s, p)] + NamesAt(s, ps)
  {
    assert ([p] + ps)[1..] == ps;
  }

  lemma {:induction false} ExtractedAreNames(s: string, i: nat)
    ensures Extracted(s, i) == NamesAt(s, Reported(s, i))
    decreases |s| - i
  {
    if i >= |s| {
    } else if s[i] != '{' {
      ExtractedAreNames(s, i + 1);
    } else {
      var end := NextClose(s, i + 1);
      if end < |s| {
        ExtractedAreNames(s, end + 1);
        if ValidName(s[i + 1..end]) {
          NamesCons(s, i, Reported(s, end + 1));
        }
      }
    }
  }

  method ExtractTokens(s: string) returns (out: seq<string>)
    ensures out == Extracted(s, 0)
  {
    out := [];
    var i := 0;
    while i < |s|
      invariant 0 <= i <= |s| && Extracted(s, 0) == out + Extracted(s, i)
      decreases |s| - i
    {
      if s[i] != '{' {
        i := i + 1;
      } else {
        var end := NextClose(s, i + 1);
        if end == |s| {
          break;
        }
        var tok := s[i + 1..end];
        var valid := IsValidTokenName(tok);
        if valid {
          Regroup(out, [tok], Extracted(s, end + 1));
          out := out + [tok];
        }
        i := end + 1;
      }
    }
    assert Extracted(s, i) == [];
  }

  lemma CloseIsFirst(s: string, q: nat, e: nat)
    requires q <= e < |s| && s[e] == '}'
    ensures NextClose(s, q) <= e
  {
  }

  lemma {:induction false} ReportedFrom(s: string, i: nat)
    requires Clear(s, i)
    ensures forall p :: p in Reported(s, i) <==> i <= p && Token(s, p) && Clear(s, p)
    decreases |s| - i
  {
    if i < |s| {
      if s[i] != '{' {
        ReportedFrom(s, i + 1);
      } else {
        var end := NextClose(s, i + 1);
        assert NextClose(s, i) == end;
        if end == |s| {
          forall p | i <= p
            ensures !Token(s, p)
          {
          }
        } else {
          forall q | 0 <= q < end + 1 && s[q] == '{'
            ensures NextClose(s, q) < end + 1
          {
            CloseIsFirst(s, q, end);
          }
          ReportedFrom(s, end + 1);
        }
      }
    }
  }

  lemma IncreasingBefore(p: nat, ps: seq<nat>)
    requires Increasing(ps) && forall q :: q in ps ==> p < q
    ensures Increasing([p] + ps)
  {
    assert forall k :: 0 <= k < |ps| ==> ps[k] in ps;
  }

  lemma {:induction false} ReportedIncrease(s: string, i: nat)
    ensures Increasing(Reported(s, i))
    decreases |s| - i
  {
    if i < |s| {
      var end := if s[i] == '{' then NextClose(s, i + 1) else i;
      if end < |s| {
        ReportedIncrease(s, end + 1);
        IncreasingBefore(i, Reported(s, end + 1));
      }
    }
  }

  /** Validation reports a token exactly when no earlier brace is still open before it. */
  lemma ReportsExactlyClearTokens(s: string)
    ensures forall p :: p in Reported(s, 0) <==> Token(s, p) && Clear(s, p)
    ensures Increasing(Reported(s, 0))
  {
    ReportedFrom(s, 0);
    ReportedIncrease(s, 0);
  }

  lemma {:induction false} SortedListsAgree(a: seq<nat>, b: seq<nat>)
    requires Increasing(a) && Increasing(b)
    requires forall p :: p in a <==> p in b
    ensures a == b
  {
    assert (a != [] ==> a[0] in b) && (b != [] ==> b[0] in a);
    if a != [] {
      forall p
        ensures p in a[1..] <==> p in b[1..]
      {
        assert p in a[1..] <==> p in a && p != a[0];
        assert p in b[1..] <==> p in b && p != b[0];
      }
      SortedListsAgree(a[1..], b[1..]);
    }
  }

  /** The two scanners find the same tokens exactly when no token stands behind a
      brace that is still open. */
  lemma ScannersAgreeIff(s: string)
    ensures Reported(s, 0) == Positions(s, 0) <==> forall p :: Token(s, p) ==> Clear(s, p)
  {
    ReportsExactlyClearTokens(s);
    if forall p :: Token(s, p) ==> Clear(s, p) {
      PositionsIncrease(s, 0);
      SortedListsAgree(Reported(s, 0), Positions(s, 0));
    } else {
      var p :| Token(s, p) && !Clear(s, p);
      assert p in Positions(s, 0) && p !in Reported(s, 0);
    }
  }

  /** In particular when no brace is opened between an opening brace and the next
      closing one. */
  lemma AgreeWithoutNesting(s: string)
    requires forall q, p :: 0 <= q < p < |s| && s[q] == '{' && s[p] == '{' ==> NextClose(s, q) < p
    ensures Reported(s, 0) == Positions(s, 0)
  {
    forall p | Token(s, p)
      ensures Clear(s, p)
    {
    }
    ScannersAgreeIff(s);
  }

  // ------------------------------------------------------------ parsing a template

  datatype Parsed =
    | Argv(argv: seq<string>)
    | UnterminatedQuote
    | EmptyCommand
    | UnknownTokens(names: set<string>)

  function UnknownIn(argv: seq<string>): (r: set<string>)
    ensures forall n :: n in r <==> n !in KNOWN && exists a, p :: a in argv && p in Reported(a, 0) && n == Name(a, p)
  {
    set a, p | a in argv && p in Reported(a, 0) && Name(a, p) !in KNOWN :: Name(a, p)
  }

  function Parse(raw: string): Parsed {
    match ShellSplit.Words(raw)
    case None => UnterminatedQuote
    case Some(argv) =>
      if argv == [] then EmptyCommand
      else if UnknownIn(argv) != {} then UnknownTokens(UnknownIn(argv))
      else Argv(argv)
  }

  method AddUnknown(found: set<string>, toks: seq<string>) returns (unknown: set<string>)
    ensures unknown == found + set k | 0 <= k < |toks| && toks[k] !in KNOWN :: toks[k]
  {
    unknown := found;
    for j := 0 to |toks|
      invariant unknown == found + set k | 0 <= k < j && toks[k] !in KNOWN :: toks[k]
    {
      if toks[j] !in KNOWN {
        unknown := unknown + {toks[j]};
      }
    }
  }

  method ParseRecordTemplate(raw: string) returns (r: Parsed)
    ensures r == Parse(raw)
  {
    var words := ShellSplit.Splitted(raw);
    if words.None? {
      return UnterminatedQuote;
    }
    var argv := words.value;
    if |argv| == 0 {
      return EmptyCommand;
    }
    var unknown: set<string> := {};
    for i := 0 to |argv|
      invariant unknown == UnknownIn(argv[..i])
    {
      var toks := ExtractTokens(argv[i]);
      unknown := AddUnknown(unknown, toks);
      UnknownGrows(argv, i, toks);
    }
    assert argv[..|argv|] == argv;
    if unknown != {} {
      return UnknownTokens(unknown);
    }
    return Argv(argv);
  }

  /** The unknown names among those that a word reports. */
  lemma UnknownHere(a: string, toks: seq<string>, n: string)
    requires toks == Extracted(a, 0)
    ensures n in (set k | 0 <= k < |toks| && toks[k] !in KNOWN :: toks[k]) <==>
            n !in KNOWN && exists p :: p in Reported(a, 0) && n == Name(a, p)
  {
    var ps := Reported(a, 0);
    ExtractedAreNames(a, 0);
    if n !in KNOWN && exists p :: p in ps && n == Name(a, p) {
      var p :| p in ps && n == Name(a, p);
      var k :| 0 <= k < |ps| && ps[k] == p;
      assert toks[k] == n;
    }
    if k :| 0 <= k < |toks| && toks[k] !in KNOWN && toks[k] == n {
      assert ps[k] in ps && n == Name(a, ps[k]);
    }
  }

  lemma UnknownGrows(argv: seq<string>, i: nat, toks: seq<string>)
    requires i < |argv| && toks == Extracted(argv[i], 0)
    ensures UnknownIn(argv[..i + 1]) ==
            UnknownIn(argv[..i]) + set k | 0 <= k < |toks| && toks[k] !in KNOWN :: toks[k]
  {
    var here := set k | 0 <= k < |toks| && toks[k] !in KNOWN :: toks[k];
    assert argv[..i + 1] == argv[..i] + [argv[i]];
    assert forall b :: b in argv[..i + 1] <==> b in argv[..i] || b == argv[i];
    forall n
      ensures n in UnknownIn(argv[..i + 1]) <==> n in UnknownIn(argv[..i]) + here
    {
      UnknownHere(argv[i], toks, n);
    }
  }

  /** Expanding fills in every word of a parsed command. */
  method Expand(argv: seq<string>, c: Context, lib: Library) returns (out: seq<string>)
    ensures |out| == |argv|
    ensures forall k :: 0 <= k < |argv| ==> out[k] == Substituted(argv[k], 0, c, lib)
  {
    out := [];
    for i := 0 to |argv|
      invariant |out| == i && forall k :: 0 <= k < i ==> out[k] == Substituted(argv[k], 0, c, lib)
    {
      var word := Substitute(argv[i], c, lib);
      out := out + [word];
    }
  }

  /** A template is accepted exactly when it splits into at least one word and every
      token that is not behind an open brace is known. */
  lemma AcceptedIff(raw: string)
    ensures Parse(raw).Argv? <==>
            && ShellSplit.Words(raw).Some? && ShellSplit.Words(raw).value != []
            && forall a, p :: a in ShellSplit.Words(raw).value && Token(a, p) && Clear(a, p) ==> Name(a, p) in KNOWN
  {
    if ShellSplit.Words(raw).Some? {
      var argv := ShellSplit.Words(raw).value;
      forall a | a in argv {
        ReportsExactlyClearTokens(a);
      }
      if UnknownIn(argv) != {} {
        var n :| n in UnknownIn(argv);
      } else {
        forall a, p | a in argv && Token(a, p) && Clear(a, p)
          ensures Name(a, p) in KNOWN
        {
          assert p in Reported(a, 0);
          assert Name(a, p) !in UnknownIn(argv);
        }
      }
    }
  }

  /** In a word of an accepted template every token has a value, so that nothing is
      passed through, exactly when the tokens behind an open brace are known too. */
  lemma NothingPassedThroughIff(raw: string, a: string, c: Context, lib: Library)
    requires Parse(raw).Argv? && a in Parse(raw).argv
    ensures (forall p :: Token(a, p) ==> Resolve(Name(a, p), c, lib).Some?) <==>
            (forall p :: Token(a, p) && !Clear(a, p) ==> Name(a, p) in KNOWN)
  {
    AcceptedIff(raw);
  }

  lemma NothingReported(s: string)
    requires s == "{x{typo}"
    ensures Reported(s, 0) == []
  {
    CloseIsFirst(s, 1, 7);
    assert s[1..7][1] == '{';
    assert Reported(s, 8) == [];
  }

  lemma AcceptsUnreported(a: string)
    requires Reported(a, 0) == []
    ensures Parse(ShellSplit.Join([a])) == Argv([a])
  {
    ShellSplit.SplitInvertsQuoting([a]);
    assert UnknownIn([a]) == {};
  }

  lemma TypoIsToken(a: string)
    requires a == "{x{typo}"
    ensures Token(a, 2) && Name(a, 2) == "typo"
  {
    CloseIsFirst(a, 3, 7);
    assert a[3..7] == "typo";
  }

  /** Such a template: the quoted word `{x{typo}` is accepted although it holds the
      unknown token `typo`. */
  lemma HiddenTypo(a: string)
    requires a == "{x{typo}"
    ensures Parse(ShellSplit.Join([a])) == Argv([a])
    ensures Token(a, 2) && Name(a, 2) == "typo" && Name(a, 2) !in KNOWN
  {
    TypoIsToken(a);
    NothingReported(a);
    AcceptsUnreported(a);
  }
}
