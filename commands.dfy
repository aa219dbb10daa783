/** The command front end of src/main.cc: `trim` and `split` on an input line,
    the case-insensitive lookup of the first token in the command map, and the
    token-count and range checks each command makes before it calls the CLI.
    The checks are a pure classifier from the token list to either the CLI call
    to make or the error reported instead. */
module Commands {
  import opened Decimal
  import Session

  // ---------------------------------------------------------------------------
  // trim

  /** The characters `trim` strips: " \t\n\r" (no \v, no \f). */
  predicate IsTrimSpace(c: char) {
    c == ' ' || c == '\t' || c == '\n' || c == '\r'
  }

  predicate AllTrimSpace(s: string) {
    forall i :: 0 <= i < |s| ==> IsTrimSpace(s[i])
  }

  predicate AllSpace(s: string) {
    forall i :: 0 <= i < |s| ==> IsSpace(s[i])
  }

  /** `find_first_not_of(" \t\n\r")`: None stands for `npos`. */
  function FirstKept(s: string): (r: Option<nat>)
    ensures r.None? ==> AllTrimSpace(s)
    ensures r.Some? ==> r.value < |s| && !IsTrimSpace(s[r.value]) && AllTrimSpace(s[..r.value])
    decreases |s|
  {
    if s == [] then None
    else if !IsTrimSpace(s[0]) then Some(0)
    else
      match FirstKept(s[1..])
      case None => None
      case Some(i) =>
        assert s[..i + 1] == [s[0]] + s[1..][..i];
        Some(i + 1)
  }

  /** `find_last_not_of(" \t\n\r")`: None stands for `npos`. */
  function LastKept(s: string): (r: Option<nat>)
    ensures r.None? ==> AllTrimSpace(s)
    ensures r.Some? ==> r.value < |s| && !IsTrimSpace(s[r.value]) && AllTrimSpace(s[r.value + 1..])
    decreases |s|
  {
    if s == [] then None
    else if !IsTrimSpace(s[|s| - 1]) then Some(|s| - 1)
    else
      var r := LastKept(s[..|s| - 1]);
      if r.Some? then
        assert forall j :: r.value + 1 <= j < |s| - 1 ==> s[j] == s[..|s| - 1][j];
        r
      else r
  }

  /** `r` is `s` with a trim-space prefix of length `a` and a trim-space
      suffix cut off. */
  predicate IsTrimOf(s: string, r: string, a: int) {
    0 <= a && a + |r| <= |s| && s[a..a + |r|] == r && AllTrimSpace(s[..a]) && AllTrimSpace(s[a + |r|..])
  }

  /** Where the trimmed line starts in `s`. */
  function TrimStart(s: string): nat {
    match FirstKept(s)
    case None => |s|
    case Some(first) => first
  }

  /** `trim(str)`: empty when `s` is all trim space, otherwise the part of `s`
      from its first to its last character that is not. */
  function Trim(s: string): (r: string)
    ensures r == [] <==> AllTrimSpace(s)
    ensures r != [] ==> !IsTrimSpace(r[0]) && !IsTrimSpace(r[|r| - 1])
    ensures IsTrimOf(s, r, TrimStart(s))
  {
    match FirstKept(s)
    case None =>
      assert s[|s|..] == [];
      []
    case Some(first) =>
      var last := LastKept(s).value;
      assert first <= last;
      s[first..last + 1]
  }

  /** Trimming a trimmed line changes nothing. */
  lemma TrimIdempotent(s: string)
    ensures Trim(Trim(s)) == Trim(s)
  {
    var r := Trim(s);
    if r != [] {
      assert FirstKept(r) == Some(0);
      assert LastKept(r) == Some(|r| - 1);
      assert r[0..|r|] == r;
    }
  }

  /** The characters strictly inside the trimmed range are kept as they are:
      whatever white space sits between words survives `trim`. */
  lemma TrimKeepsInterior(s: string, i: int, j: int)
    requires 0 <= i < j < |s| && !IsTrimSpace(s[i]) && !IsTrimSpace(s[j])
    ensures var a := TrimStart(s);
      a <= i && j - a < |Trim(s)| && Trim(s)[i - a..j - a + 1] == s[i..j + 1]
  {
    var r := Trim(s);
    var a := TrimStart(s);
    assert IsTrimOf(s, r, a);
    SliceOfSlice(s, a, a + |r|, i, j + 1);
  }

  lemma SliceOfSlice(s: string, a: int, b: int, i: int, j: int)
    requires 0 <= a <= i <= j <= b <= |s|
    ensures s[a..b][i - a..j - a] == s[i..j]
  {
    var m := s[a..b][i - a..j - a];
    assert forall k :: 0 <= k < |m| ==> m[k] == s[i + k];
  }

  // ---------------------------------------------------------------------------
  // split

  /** The number of non-white-space characters at the front of `s`. */
  function WordLength(s: string): (n: nat)
    ensures n <= |s|
    ensures forall i :: 0 <= i < n ==> !IsSpace(s[i])
    ensures n < |s| ==> IsSpace(s[n])
  {
    if s != [] && !IsSpace(s[0]) then 1 + WordLength(s[1..]) else 0
  }

  /** What `istream >> std::string` can produce: a non-empty run without
      white space. */
  predicate IsWord(t: string) {
    |t| > 0 && forall i :: 0 <= i < |t| ==> !IsSpace(t[i])
  }

  /** `s` without its white-space characters. */
  function Strip(s: string): string
    decreases |s|
  {
    if s == [] then [] else (if IsSpace(s[0]) then [] else [s[0]]) + Strip(s[1..])
  }

  function Concat(ts: seq<string>): string
    decreases |ts|
  {
    if ts == [] then [] else ts[0] + Concat(ts[1..])
  }

  lemma {:induction false} StripAppend(a: string, b: string)
    ensures Strip(a + b) == Strip(a) + Strip(b)
    decreases |a|
  {
    if a != [] {
      var h := if IsSpace(a[0]) then [] else [a[0]];
      StripAppend(a[1..], b);
      StripCons(a, b, h);
      assert h + (Strip(a[1..]) + Strip(b)) == (h + Strip(a[1..])) + Strip(b);
    } else {
      assert a + b == b;
    }
  }

  lemma StripCons(a: string, b: string, h: string)
    requires a != [] && h == if IsSpace(a[0]) then [] else [a[0]]
    ensures Strip(a) == h + Strip(a[1..])
    ensures Strip(a + b) == h + Strip(a[1..] + b)
  {
    assert (a + b)[0] == a[0];
    assert (a + b)[1..] == a[1..] + b;
  }

  lemma {:induction false} StripAllSpace(s: string)
    requires AllSpace(s)
    ensures Strip(s) == []
    decreases |s|
  {
    if s != [] {
      StripAllSpace(s[1..]);
    }
  }

  lemma {:induction false} StripWord(s: string)
    requires forall i :: 0 <= i < |s| ==> !IsSpace(s[i])
    ensures Strip(s) == s
    decreases |s|
  {
    if s != [] {
      StripWord(s[1..]);
      assert [s[0]] + s[1..] == s;
    }
  }

  lemma StripFirstWord(s: string, i: nat, n: nat)
    requires i + n <= |s| && AllSpace(s[..i])
    requires forall k :: 0 <= k < n ==> !IsSpace(s[i..][k])
    ensures Strip(s) == s[i..i + n] + Strip(s[i + n..])
  {
    SliceWord(s, i, n, s[i..i + n]);
    StripPieces(s[..i], s[i..i + n], s[i + n..]);
    ThreeSlices(s, i, i + n);
  }

  lemma SliceWord(s: string, i: nat, n: nat, word: string)
    requires i + n <= |s| && word == s[i..i + n]
    requires forall k :: 0 <= k < n ==> !IsSpace(s[i..][k])
    ensures forall k :: 0 <= k < |word| ==> !IsSpace(word[k])
  {
    forall k | 0 <= k < |word|
      ensures !IsSpace(word[k])
    {
      assert word[k] == s[i..][k];
    }
  }

  lemma ThreeSlices(s: string, i: nat, j: nat)
    requires i <= j <= |s|
    ensures s == s[..i] + s[i..j] + s[j..]
  {
  }

  lemma StripPieces(pre: string, word: string, rest: string)
    requires AllSpace(pre)
    requires forall k :: 0 <= k < |word| ==> !IsSpace(word[k])
    ensures Strip(pre + word + rest) == word + Strip(rest)
  {
    StripAppend(pre + word, rest);
    StripAppend(pre, word);
    StripAllSpace(pre);
    StripWord(word);
    assert [] + word == word;
  }

  /** `split(input)`: the words of `input`, as copying an
      `istream_iterator<std::string>` into a vector collects them. */
  function Split(s: string): seq<string>
    decreases |s|
  {
    var i := LeadingSpaces(s);
    if i == |s| then []
    else
      var n := WordLength(s[i..]);
      [s[i..i + n]] + Split(s[i + n..])
  }

  /** Each word `split` collects is non-empty and free of white space, there
      is none exactly when the input is all white space, and together the
      words spell the input with its white space removed. */
  lemma SplitWords(s: string)
    ensures forall k :: 0 <= k < |Split(s)| ==> IsWord(Split(s)[k])
    ensures Split(s) == [] <==> AllSpace(s)
    ensures Concat(Split(s)) == Strip(s)
  {
    SplitAreWords(s);
    SplitConcat(s);
  }

  lemma {:induction false} SplitAreWords(s: string)
    ensures forall k :: 0 <= k < |Split(s)| ==> IsWord(Split(s)[k])
    decreases |s|
  {
    var i := LeadingSpaces(s);
    if i < |s| {
      var n := WordLength(s[i..]);
      SplitAt(s, i, n);
      SplitAreWords(s[i + n..]);
      FirstWord(s, i, n);
      WordsCons(s[i..i + n], Split(s[i + n..]));
    }
  }

  lemma FirstWord(s: string, i: nat, n: nat)
    requires i == LeadingSpaces(s) && i < |s| && n == WordLength(s[i..])
    ensures IsWord(s[i..i + n])
  {
    var w := s[i..i + n];
    assert forall k :: 0 <= k < |w| ==> w[k] == s[i..][k];
  }

  lemma WordsCons(w: string, ts: seq<string>)
    requires IsWord(w) && forall k :: 0 <= k < |ts| ==> IsWord(ts[k])
    ensures forall k :: 0 <= k < |[w] + ts| ==> IsWord(([w] + ts)[k])
  {
    assert forall k :: 1 <= k < |[w] + ts| ==> ([w] + ts)[k] == ts[k - 1];
  }

  lemma {:induction false} SplitConcat(s: string)
    ensures Concat(Split(s)) == Strip(s)
    decreases |s|
  {
    var i := LeadingSpaces(s);
    if i == |s| {
      StripAllSpace(s);
    } else {
      var n := WordLength(s[i..]);
      SplitAt(s, i, n);
      SplitConcat(s[i + n..]);
      StripFirstWord(s, i, n);
      ConcatCons(s[i..i + n], Split(s[i + n..]));
    }
  }

  lemma ConcatCons(w: string, ts: seq<string>)
    ensures Concat([w] + ts) == w + Concat(ts)
  {
    assert ([w] + ts)[1..] == ts;
  }

  /** Words with white space between them: `gaps[0] + ws[0] + gaps[1] + ...
      + ws[m - 1] + gaps[m]`. */
  function Interleave(gaps: seq<string>, ws: seq<string>): string
    requires |gaps| == |ws| + 1
    decreases |ws|
  {
    if ws == [] then gaps[0] else gaps[0] + ws[0] + Interleave(gaps[1..], ws[1..])
  }

  /** Gaps of white space around and between words, non-empty between two
      words. */
  predicate Gaps(gaps: seq<string>, ws: seq<string>) {
    && |gaps| == |ws| + 1
    && (forall k :: 0 <= k < |gaps| ==> AllSpace(gaps[k]))
    && (forall k :: 0 < k < |ws| ==> gaps[k] != [])
    && (forall k :: 0 <= k < |ws| ==> IsWord(ws[k]))
  }

  /** Whatever white space separates the words, `split` returns exactly the
      words: a run of non-white-space characters is never cut in two and
      never joined to the next. */
  lemma {:induction false} SplitInterleave(gaps: seq<string>, ws: seq<string>)
    requires Gaps(gaps, ws)
    ensures Split(Interleave(gaps, ws)) == ws
    decreases |ws|
  {
    if ws == [] {
      SplitAllSpace(gaps[0]);
    } else {
      var g, w := gaps[0], ws[0];
      var rest := Interleave(gaps[1..], ws[1..]);
      GapsTail(gaps, ws);
      InterleaveStart(gaps[1..], ws[1..]);
      SplitGapWord(g, w, rest);
      SplitInterleave(gaps[1..], ws[1..]);
      assert [w] + ws[1..] == ws;
    }
  }

  lemma GapsTail(gaps: seq<string>, ws: seq<string>)
    requires Gaps(gaps, ws) && ws != []
    ensures Gaps(gaps[1..], ws[1..])
    ensures IsWord(ws[0]) && AllSpace(gaps[0])
    ensures |ws| > 1 ==> gaps[1] != []
  {
    assert forall k :: 0 <= k < |gaps| - 1 ==> gaps[1..][k] == gaps[k + 1];
    assert forall k :: 0 <= k < |ws| - 1 ==> ws[1..][k] == ws[k + 1];
  }

  /** Interleaved text after the first word starts with white space. */
  lemma InterleaveStart(gaps: seq<string>, ws: seq<string>)
    requires Gaps(gaps, ws) && (ws != [] ==> gaps[0] != [])
    ensures var s := Interleave(gaps, ws); s == [] || IsSpace(s[0])
  {
    if ws != [] {
      var s := Interleave(gaps, ws);
      assert s[0] == gaps[0][0];
    }
  }

  lemma SplitAllSpace(s: string)
    requires AllSpace(s)
    ensures Split(s) == []
  {
    LeadingSpacesAll(s);
  }

  lemma {:induction false} LeadingSpacesAll(s: string)
    requires AllSpace(s)
    ensures LeadingSpaces(s) == |s|
    decreases |s|
  {
    if s != [] {
      LeadingSpacesAll(s[1..]);
    }
  }

  lemma {:induction false} LeadingSpacesOfGap(g: string, u: string)
    requires AllSpace(g) && u != [] && !IsSpace(u[0])
    ensures LeadingSpaces(g + u) == |g|
    decreases |g|
  {
    if g != [] {
      assert (g + u)[1..] == g[1..] + u;
      LeadingSpacesOfGap(g[1..], u);
    } else {
      assert g + u == u;
    }
  }

  /** One word after a gap, then white space or nothing: one step of
      `split`. */
  lemma SplitGapWord(g: string, w: string, rest: string)
    requires AllSpace(g) && IsWord(w) && (rest == [] || IsSpace(rest[0]))
    ensures Split(g + w + rest) == [w] + Split(rest)
  {
    var s := g + w + rest;
    assert s == g + (w + rest);
    LeadingSpacesOfGap(g, w + rest);
    assert s[|g|..] == w + rest;
    WordLengthOfWord(w, rest);
    assert s[|g|..|g| + |w|] == w;
    assert s[|g| + |w|..] == rest;
    SplitAt(s, |g|, |w|);
  }

  /** The words joined with single spaces. */
  function JoinWords(ts: seq<string>): string
    decreases |ts|
  {
    if ts == [] then [] else if |ts| == 1 then ts[0] else ts[0] + " " + JoinWords(ts[1..])
  }

  /** One step of `Split`: the first word, then the split of what follows it. */
  lemma SplitAt(s: string, i: nat, n: nat)
    requires i == LeadingSpaces(s) && i < |s| && n == WordLength(s[i..])
    ensures Split(s) == [s[i..i + n]] + Split(s[i + n..])
  {
  }

  /** A space in front of a word does not change the split. */
  lemma SplitLeadingSpace(u: string)
    requires u != [] && !IsSpace(u[0])
    ensures Split(" " + u) == Split(u)
  {
    var t := " " + u;
    var n := WordLength(u);
    SpacedWord(u, t, n);
    SplitAt(t, 1, n);
    SplitAt(u, 0, n);
  }

  lemma SpacedWord(u: string, t: string, n: nat)
    requires u != [] && !IsSpace(u[0]) && t == " " + u && n == WordLength(u)
    ensures LeadingSpaces(t) == 1 && LeadingSpaces(u) == 0 && 1 < |t|
    ensures u[0..] == u && WordLength(t[1..]) == n
    ensures t[1..1 + n] == u[0..n] && t[1 + n..] == u[n..]
  {
    assert t[1..] == u;
  }

  lemma {:induction false} WordLengthOfWord(t: string, rest: string)
    requires forall i :: 0 <= i < |t| ==> !IsSpace(t[i])
    requires rest == [] || IsSpace(rest[0])
    ensures WordLength(t + rest) == |t|
    decreases |t|
  {
    if t != [] {
      assert (t + rest)[1..] == t[1..] + rest;
      WordLengthOfWord(t[1..], rest);
    }
  }

  lemma JoinWordsStart(ts: seq<string>)
    requires ts != [] && IsWord(ts[0])
    ensures JoinWords(ts) != [] && JoinWords(ts)[0] == ts[0][0]
  {
  }

  /** Splitting words joined by spaces gives the words back. */
  lemma {:induction false} SplitJoinWords(ts: seq<string>)
    requires forall k :: 0 <= k < |ts| ==> IsWord(ts[k])
    ensures Split(JoinWords(ts)) == ts
    decreases |ts|
  {
    if ts != [] {
      var t := ts[0];
      var rest := if |ts| == 1 then [] else " " + JoinWords(ts[1..]);
      var s := t + rest;
      assert s == JoinWords(ts);
      assert LeadingSpaces(s) == 0;
      assert s[0..] == s;
      WordLengthOfWord(t, rest);
      assert s[..|t|] == t;
      assert s[|t|..] == rest;
      if |ts| == 1 {
        assert Split(rest) == [];
      } else {
        SplitJoinWords(ts[1..]);
        JoinWordsStart(ts[1..]);
        SplitLeadingSpace(JoinWords(ts[1..]));
      }
    }
  }

  // ---------------------------------------------------------------------------
  // Lower-casing and the command map

  /** `::tolower` in the C locale. */
  function LowerChar(c: char): char {
    if 'A' <= c <= 'Z' then (c as int - 'A' as int + 'a' as int) as char else c
  }

  /** `std::transform(..., ::tolower)`. */
  function Lower(s: string): (r: string)
    ensures |r| == |s|
    ensures forall i :: 0 <= i < |s| ==> !('A' <= r[i] <= 'Z')
    ensures forall i :: 0 <= i < |s| ==> (r[i] == s[i] || ('A' <= s[i] <= 'Z' && r[i] as int == s[i] as int + 32))
  {
    seq(|s|, i requires 0 <= i < |s| => LowerChar(s[i]))
  }

  predicate NoUpper(s: string) {
    forall i :: 0 <= i < |s| ==> !('A' <= s[i] <= 'Z')
  }

  /** Lower-casing changes exactly the upper-case letters, so a string without
      any is its own lower-case form. */
  lemma LowerNoUpper(s: string)
    ensures Lower(s) == s <==> NoUpper(s)
  {
    if NoUpper(s) {
      assert forall i :: 0 <= i < |s| ==> Lower(s)[i] == s[i];
    }
  }

  lemma LowerIdempotent(s: string)
    ensures Lower(Lower(s)) == Lower(s)
  {
    LowerNoUpper(Lower(s));
  }

  /** The `commands` enum. */
  datatype Verb =
    | CREATE | LOAD | SAVE | PRINT | DELAY | STABILITY | RUN | SET | GET
    | GLIDER | TOAD | BEACON | METHUSELAH | RANDOM | HELP | EXIT

  /** `command_map`: 16 lower-case names. */
  const CommandTable: map<string, Verb> := map[
    "create" := CREATE, "load" := LOAD, "save" := SAVE, "print" := PRINT,
    "delay" := DELAY, "stability" := STABILITY, "run" := RUN, "set" := SET,
    "get" := GET, "glider" := GLIDER, "toad" := TOAD, "beacon" := BEACON,
    "methuselah" := METHUSELAH, "random" := RANDOM, ".help" := HELP, ".exit" := EXIT]

  /** The name each verb is entered under. */
  function NameOf(v: Verb): (name: string)
    ensures name in CommandTable && CommandTable[name] == v
    ensures NoUpper(name)
  {
    match v
    case CREATE => "create"
    case LOAD => "load"
    case SAVE => "save"
    case PRINT => "print"
    case DELAY => "delay"
    case STABILITY => "stability"
    case RUN => "run"
    case SET => "set"
    case GET => "get"
    case GLIDER => "glider"
    case TOAD => "toad"
    case BEACON => "beacon"
    case METHUSELAH => "methuselah"
    case RANDOM => "random"
    case HELP => ".help"
    case EXIT => ".exit"
  }

  /** The table holds one entry per verb, each under its own name, and no
      other: a name maps to a verb exactly when it is that verb's name. */
  lemma CommandTableIsNameOf(name: string)
    ensures name in CommandTable <==> exists v :: NameOf(v) == name
    ensures name in CommandTable ==> NameOf(CommandTable[name]) == name
  {
    if name in CommandTable {
      assert NameOf(CommandTable[name]) == name;
    }
  }

  lemma CommandTableSize()
    ensures |CommandTable.Keys| == 16
  {
    var keys := ["create", "load", "save", "print", "delay", "stability", "run", "set",
                 "get", "glider", "toad", "beacon", "methuselah", "random", ".help", ".exit"];
    assert CommandTable.Keys == set k | k in keys;
    assert forall i, j :: 0 <= i < j < |keys| ==> keys[i] != keys[j];
    DistinctCard(keys);
  }

  lemma {:induction false} DistinctCard(ks: seq<string>)
    requires forall i, j :: 0 <= i < j < |ks| ==> ks[i] != ks[j]
    ensures |set k | k in ks| == |ks|
    decreases |ks|
  {
    if ks != [] {
      var init := ks[..|ks| - 1];
      assert (set k | k in ks) == (set k | k in init) + {ks[|ks| - 1]};
      assert ks[|ks| - 1] !in (set k | k in init);
      DistinctCard(init);
    }
  }

  // ---------------------------------------------------------------------------
  // Commands and their validation

  /** A CLI call `main` makes, with its arguments. */
  datatype Command =
    | Create(height: int, width: int)
    | Load(path: string)
    | Save(path: string)
    | Print(setting: int)
    | Delay(ms: int)
    | Stability(setting: int)
    | Run(gen: int)
    | SetIndex(index: int, alive: int)
    | SetCell(x: int, y: int, alive: int)
    | GetIndex(index: int)
    | GetCell(x: int, y: int)
    | Stamp(pattern: Session.Pattern, x: int, y: int)
    | Random(n: int)
    | Help
    | Exit

  /** Why a line is refused: an unknown command name (lower-cased), a
      `runtime_error` with its message, or `std::stoi` throwing on an
      argument that is not a number or does not fit in an int. */
  datatype Error = UnknownCommand(command: string) | Thrown(message: string) | NotANumber

  datatype Outcome = Accepted(command: Command) | Rejected(error: Error)

  function VerbOf(c: Command): Verb {
    match c
    case Create(_, _) => CREATE
    case Load(_) => LOAD
    case Save(_) => SAVE
    case Print(_) => PRINT
    case Delay(_) => DELAY
    case Stability(_) => STABILITY
    case Run(_) => RUN
    case SetIndex(_, _) => SET
    case SetCell(_, _, _) => SET
    case GetIndex(_) => GET
    case GetCell(_, _) => GET
    case Stamp(p, _, _) =>
      (match p
       case Glider => GLIDER
       case Toad => TOAD
       case Beacon => BEACON
       case Methuselah => METHUSELAH)
    case Random(_) => RANDOM
    case Help => HELP
    case Exit => EXIT
  }

  /** The integer arguments of a call, in the order they are typed. */
  function IntArgs(c: Command): seq<int> {
    match c
    case Create(h, w) => [h, w]
    case Load(_) => []
    case Save(_) => []
    case Print(s) => [s]
    case Delay(ms) => [ms]
    case Stability(s) => [s]
    case Run(g) => [g]
    case SetIndex(i, a) => [i, a]
    case SetCell(x, y, a) => [x, y, a]
    case GetIndex(i) => [i]
    case GetCell(x, y) => [x, y]
    case Stamp(_, x, y) => [x, y]
    case Random(n) => [n]
    case Help => []
    case Exit => []
  }

  /** The calls whose arguments are all ints. */
  predicate IntCall(c: Command) {
    !(c.Load? || c.Save? || c.Help? || c.Exit?)
  }

  predicate AllInt32(vs: seq<int>) {
    forall k :: 0 <= k < |vs| ==> IsInt32(vs[k])
  }

  /** The checks `main` makes before each call: 0 or 1 for the two switches,
      non-negative counts, delays and indices, positive sizes and coordinates,
      every number an int. */
  predicate Valid(c: Command) {
    AllInt32(IntArgs(c)) && InRange(c)
  }

  predicate InRange(c: Command) {
    match c
       case Create(h, w) => h > 0 && w > 0
       case Load(_) => true
       case Save(_) => true
       case Print(s) => s == 0 || s == 1
       case Delay(ms) => ms >= 0
       case Stability(s) => s == 0 || s == 1
       case Run(g) => g >= 0
       case SetIndex(i, _) => i >= 0
       case SetCell(x, y, _) => x >= 1 && y >= 1
       case GetIndex(i) => i >= 0
       case GetCell(x, y) => x >= 1 && y >= 1
       case Stamp(_, x, y) => x >= 1 && y >= 1
       case Random(n) => n >= 0
       case Help => true
       case Exit => true
  }

  /** The token counts each verb takes (HELP and EXIT ignore theirs). */
  predicate ArityAllowed(v: Verb, count: nat) {
    match v
    case CREATE => count == 3
    case SET => count == 3 || count == 4
    case GET => count == 2 || count == 3
    case GLIDER => count == 3
    case TOAD => count == 3
    case BEACON => count == 3
    case METHUSELAH => count == 3
    case HELP => true
    case EXIT => true
    case _ => count == 2
  }

  /** The usage message thrown for a wrong token count. */
  function UsageOf(v: Verb): string {
    match v
    case CREATE => "Usage: create <height> <width>"
    case LOAD => "Usage: load <filename>"
    case SAVE => "Usage: save <filename>"
    case PRINT => "Usage: print <0|1>"
    case DELAY => "Usage: delay <ms>"
    case STABILITY => "Usage: stability <0|1>"
    case RUN => "Usage: run <generations>"
    case SET => "Usage: set <x> <y> <0|1> or set <index> <0|1>"
    case GET => "Usage: get <x> <y> or get <index>"
    case GLIDER => "Usage: glider <x> <y>"
    case TOAD => "Usage: toad <x> <y>"
    case BEACON => "Usage: beacon <x> <y>"
    case METHUSELAH => "Usage: methuselah <x> <y>"
    case RANDOM => "Usage: random <n>"
    case HELP => ""
    case EXIT => ""
  }

  /** `std::stoi` on every argument token, in order; None when one throws. */
  function ParseArgs(ts: seq<string>): (r: Option<seq<int>>)
    ensures r.Some? ==> |r.value| == |ts| && forall k :: 0 <= k < |ts| ==> Stoi(ts[k]) == Some(r.value[k])
    ensures r.Some? ==> AllInt32(r.value)
    ensures r.None? ==> exists k :: 0 <= k < |ts| && Stoi(ts[k]).None?
    decreases |ts|
  {
    if ts == [] then Some([])
    else
      match Stoi(ts[0])
      case None => None
      case Some(v) =>
        match ParseArgs(ts[1..])
        case None => None
        case Some(vs) => Some([v] + vs)
  }

  function Coordinates(x: int, y: int, call: Command): Outcome {
    if x < 1 || y < 1 then Rejected(Thrown("Coordinates must be positive")) else Accepted(call)
  }

  function Index(i: int, call: Command): Outcome {
    if i < 0 then Rejected(Thrown("Index must be non-negative")) else Accepted(call)
  }

  function Setting(s: int, call: Command): Outcome {
    if s != 0 && s != 1 then Rejected(Thrown("Setting must be 0 or 1")) else Accepted(call)
  }

  /** The range checks of a verb whose every argument is an int, once the
      token count is right and every argument has been read. */
  function CheckArgs(v: Verb, args: seq<int>): (r: Outcome)
    requires v !in {LOAD, SAVE, HELP, EXIT} && ArityAllowed(v, |args| + 1)
    ensures r.Accepted? ==> VerbOf(r.command) == v && IntCall(r.command)
    ensures r.Accepted? ==> IntArgs(r.command) == args && InRange(r.command)
  {
    match v
    case CREATE =>
      if args[0] <= 0 || args[1] <= 0 then Rejected(Thrown("Height and width must be positive"))
      else Accepted(Create(args[0], args[1]))
    case PRINT => Setting(args[0], Print(args[0]))
    case DELAY =>
      if args[0] < 0 then Rejected(Thrown("Delay must be non-negative")) else Accepted(Delay(args[0]))
    case STABILITY => Setting(args[0], Stability(args[0]))
    case RUN =>
      if args[0] < 0 then Rejected(Thrown("Generations must be non-negative")) else Accepted(Run(args[0]))
    case SET =>
      if |args| == 2 then Index(args[0], SetIndex(args[0], args[1]))
      else Coordinates(args[0], args[1], SetCell(args[0], args[1], args[2]))
    case GET =>
      if |args| == 1 then Index(args[0], GetIndex(args[0]))
      else Coordinates(args[0], args[1], GetCell(args[0], args[1]))
    case RANDOM =>
      if args[0] < 0 then Rejected(Thrown("Number of patterns must be non-negative")) else Accepted(Random(args[0]))
    case GLIDER => Coordinates(args[0], args[1], Stamp(Session.Glider, args[0], args[1]))
    case TOAD => Coordinates(args[0], args[1], Stamp(Session.Toad, args[0], args[1]))
    case BEACON => Coordinates(args[0], args[1], Stamp(Session.Beacon, args[0], args[1]))
    case METHUSELAH => Coordinates(args[0], args[1], Stamp(Session.Methuselah, args[0], args[1]))
    case LOAD => assert false; Rejected(NotANumber)
    case SAVE => assert false; Rejected(NotANumber)
    case HELP => assert false; Rejected(NotANumber)
    case EXIT => assert false; Rejected(NotANumber)
  }

  /** The body of `main`'s loop after `split`: look up the lower-cased first
      token, check the token count, read the numbers, check their ranges. An
      accepted line names the call's verb, has a count that verb takes, and
      its numbers are the ones `std::stoi` reads from the tokens and pass the
      checks. */
  function Classify(tokens: seq<string>): (r: Outcome)
    requires |tokens| >= 1
    ensures r.Rejected? && r.error.UnknownCommand? <==> Lower(tokens[0]) !in CommandTable
    ensures r.Accepted? ==> Lower(tokens[0]) == NameOf(VerbOf(r.command)) && Valid(r.command)
    ensures r.Accepted? ==> ArityAllowed(VerbOf(r.command), |tokens|)
    ensures r.Accepted? && IntCall(r.command) ==> ParseArgs(tokens[1..]) == Some(IntArgs(r.command))
    ensures r.Accepted? && (r.command.Load? || r.command.Save?) ==> r.command.path == tokens[1]
  {
    var command := Lower(tokens[0]);
    if command !in CommandTable then Rejected(UnknownCommand(command))
    else
      CommandTableIsNameOf(command);
      ClassifyVerb(CommandTable[command], tokens)
  }

  /** `Classify` once the first token has named the verb `v`. */
  function ClassifyVerb(v: Verb, tokens: seq<string>): (r: Outcome)
    requires |tokens| >= 1
    ensures !(r.Rejected? && r.error.UnknownCommand?)
    ensures r.Accepted? ==> VerbOf(r.command) == v && Valid(r.command)
    ensures r.Accepted? ==> ArityAllowed(v, |tokens|)
    ensures r.Accepted? && IntCall(r.command) ==> ParseArgs(tokens[1..]) == Some(IntArgs(r.command))
    ensures r.Accepted? && (r.command.Load? || r.command.Save?) ==> r.command.path == tokens[1]
  {
    if v == HELP then Accepted(Help)
    else if v == EXIT then Accepted(Exit)
    else if !ArityAllowed(v, |tokens|) then Rejected(Thrown(UsageOf(v)))
    else if v == LOAD then Accepted(Load(tokens[1]))
    else if v == SAVE then Accepted(Save(tokens[1]))
    else
      match ParseArgs(tokens[1..])
      case None => Rejected(NotANumber)
      case Some(args) => CheckArgs(v, args)
  }

  /** The lookup ignores the case of the command name. */
  lemma ClassifyIgnoresCase(tokens: seq<string>)
    requires |tokens| >= 1
    ensures Classify([Lower(tokens[0])] + tokens[1..]) == Classify(tokens)
  {
    var t := [Lower(tokens[0])] + tokens[1..];
    LowerIdempotent(tokens[0]);
    assert t[1..] == tokens[1..];
  }

  /** A known verb with a token count it does not take is refused with its
      usage message, before any number is read. */
  lemma ClassifyWrongCount(tokens: seq<string>)
    requires |tokens| >= 1 && Lower(tokens[0]) in CommandTable
    requires !ArityAllowed(CommandTable[Lower(tokens[0])], |tokens|)
    ensures Classify(tokens) == Rejected(Thrown(UsageOf(CommandTable[Lower(tokens[0])])))
  {
  }

  /** The tokens a user types for a call: its name, then its arguments as
      `operator<<` writes them. */
  function Render(c: Command): seq<string> {
    [NameOf(VerbOf(c))] + match c
      case Load(p) => [p]
      case Save(p) => [p]
      case _ => ShowAll(IntArgs(c))
  }

  lemma {:induction false} ParseRender(vs: seq<int>)
    requires forall k :: 0 <= k < |vs| ==> IsInt32(vs[k])
    ensures ParseArgs(ShowAll(vs)) == Some(vs)
    decreases |vs|
  {
    if vs != [] {
      StoiShow(vs[0]);
      ShowAllCons(vs);
      ParseRender(vs[1..]);
      ParseArgsCons(Show(vs[0]), ShowAll(vs[1..]), vs[0], vs[1..]);
      assert [vs[0]] + vs[1..] == vs;
    }
  }

  lemma ParseArgsCons(t: string, ts: seq<string>, v: int, vs: seq<int>)
    requires Stoi(t) == Some(v) && ParseArgs(ts) == Some(vs)
    ensures ParseArgs([t] + ts) == Some([v] + vs)
  {
    assert ([t] + ts)[1..] == ts;
  }

  /** Every call that passes the checks is what typing it produces: the
      validation accepts exactly the valid calls. */
  lemma ClassifyRender(c: Command)
    requires Valid(c)
    ensures Classify(Render(c)) == Accepted(c)
  {
    var ts := Render(c);
    LowerNoUpper(NameOf(VerbOf(c)));
    if IntCall(c) {
      assert ts[1..] == ShowAll(IntArgs(c));
      ParseRender(IntArgs(c));
      CheckArgsAccepts(c);
    }
  }

  /** The range checks pass every call that is in range. */
  lemma CheckArgsAccepts(c: Command)
    requires IntCall(c) && InRange(c)
    ensures VerbOf(c) !in {LOAD, SAVE, HELP, EXIT} && ArityAllowed(VerbOf(c), |IntArgs(c)| + 1)
    ensures CheckArgs(VerbOf(c), IntArgs(c)) == Accepted(c)
  {
  }

  // ---------------------------------------------------------------------------
  // One input line

  /** What `main` does with one line: skip it, handle it (run or report an
      error), or read `tokens[0]` of an empty vector. */
  datatype LineOutcome = Skip | TokenIndexOutOfBounds | Handled(outcome: Outcome)

  /** `main`'s loop body as written: the emptiness test looks at the trimmed
      line, which can still hold \v or \f, while `split` drops all white
      space. */
  function HandleLineAsWritten(line: string): LineOutcome {
    var input := Trim(line);
    if input == [] then Skip
    else
      var tokens := Split(input);
      if |tokens| == 0 then TokenIndexOutOfBounds else Handled(Classify(tokens))
  }

  /** The loop body with the emptiness test on the tokens themselves. */
  function HandleLine(line: string): LineOutcome {
    var tokens := Split(Trim(line));
    if tokens == [] then Skip else Handled(Classify(tokens))
  }

  lemma AllSpaceSplit(a: string, b: string, c: string)
    ensures AllSpace(a + b + c) <==> AllSpace(a) && AllSpace(b) && AllSpace(c)
  {
    var s := a + b + c;
    if AllSpace(a) && AllSpace(b) && AllSpace(c) {
      forall i | 0 <= i < |s|
        ensures IsSpace(s[i])
      {
        if i < |a| {
          assert s[i] == a[i];
        } else if i < |a| + |b| {
          assert s[i] == b[i - |a|];
        } else {
          assert s[i] == c[i - |a| - |b|];
        }
      }
    }
    if AllSpace(s) {
      assert forall i :: 0 <= i < |a| ==> a[i] == s[i];
      assert forall i :: 0 <= i < |b| ==> b[i] == s[|a| + i];
      assert forall i :: 0 <= i < |c| ==> c[i] == s[|a| + |b| + i];
    }
  }

  /** `trim` cuts off only white space. */
  lemma TrimAllSpace(line: string)
    ensures AllSpace(Trim(line)) <==> AllSpace(line)
  {
    var r := Trim(line);
    var a := TrimStart(line);
    var pre, post := line[..a], line[a + |r|..];
    assert line == pre + r + post;
    AllSpaceSplit(pre, r, post);
  }

  /** The corrected loop body never indexes an empty token vector, and skips
      exactly the lines that are all white space. */
  lemma HandleLineSafe(line: string)
    ensures HandleLine(line) != TokenIndexOutOfBounds
    ensures HandleLine(line) == Skip <==> AllSpace(line)
  {
    TrimAllSpace(line);
  }

  /** The loop body as written reads past the end of `tokens` exactly on the
      lines that are all white space but hold a \v or a \f; on every other line
      it does what the corrected body does. */
  lemma HandleLineAsWrittenFails(line: string)
    ensures HandleLineAsWritten(line) == TokenIndexOutOfBounds <==> AllSpace(line) && !AllTrimSpace(line)
    ensures HandleLineAsWritten(line) != TokenIndexOutOfBounds ==> HandleLineAsWritten(line) == HandleLine(line)
  {
    TrimAllSpace(line);
  }

  /** The line "\v": `trim` keeps it, `split` finds no token. */
  lemma VerticalTabLine()
    ensures HandleLineAsWritten("\U{B}") == TokenIndexOutOfBounds
    ensures HandleLine("\U{B}") == Skip
  {
    HandleLineAsWrittenFails("\U{B}");
    HandleLineSafe("\U{B}");
  }
}
