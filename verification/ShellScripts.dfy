// What the scanner takes for one command (src/lib/shellCommands.ts). Scripts
// are written from a grammar of the constructs that go on over several
// lines, nested in any way, and it is said exactly which of them split into
// what was written.
module ShellScripts {
  import opened Sequences
  import opened JavaScriptText
  import opened ShellCommands
  import opened ShellCommandsProofs
  import opened ShellLines

  // ----- scripts -----

  // A line's text and the backslashes after it, one more than twice `pairs`.
  datatype Part = Part(text: string, pairs: nat)

  datatype Branch = Branch(condition: string, body: seq<Script>)

  // An arm of a `case`, its pattern in parentheses or closed by a lone one.
  datatype Arm = Arm(paired: bool, pattern: string, text: string, body: seq<Script>)

  datatype Script =
    | Plain(text: string)
    | Continued(parts: seq<Part>, end: string)
    | Quoting(before: string, quote: char, first: string, middle: seq<string>, last: string, after: string)
    | Document(before: string, dashed: bool, form: Form, word: string, after: string,
               content: seq<string>, tabs: string)
    | Compound(lead: string, opener: string, closer: string, branches: seq<Branch>)
    | Case(subject: string, arms: seq<Arm>)
    | Fish(lead: string, condition: string, texts: seq<string>)
    | Led(lead: string, condition: string, body: seq<Script>)
    | Braced(before: string, body: seq<Script>)
    | Subshell(before: string, body: seq<Script>)

  function PartLine(part: Part): string {
    part.text + Backslashes(2 * part.pairs + 1)
  }

  function PartLines(parts: seq<Part>): (r: seq<string>)
    ensures |r| == |parts| && forall i :: 0 <= i < |r| ==> r[i] == PartLine(parts[i])
  {
    seq(|parts|, i requires 0 <= i < |parts| => PartLine(parts[i]))
  }

  // The lines of a script, but for the last.
  function Front(x: Script): seq<string>
    decreases x, 1
  {
    match x
    case Plain(_) => []
    case Continued(parts, _) => PartLines(parts)
    case Quoting(before, quote, first, middle, _, _) => [before + [quote] + first] + middle
    case Document(before, dashed, form, word, after, content, _) =>
      [before + " " + Opener(dashed, form, word) + after] + content
    case Compound(lead, opener, _, branches) => BranchLines(lead, opener, branches)
    case Case(subject, arms) => [CaseHead(subject)] + ArmLines(arms)
    case Fish(lead, condition, texts) => [lead + " " + condition] + texts
    case Led(lead, condition, body) => [LedHead(lead, condition)] + Lines(body)
    case Braced(before, body) => [before + " {"] + Lines(body)
    case Subshell(before, body) => [before + " ("] + Lines(body)
  }

  function Last(x: Script): string {
    match x
    case Plain(text) => text
    case Continued(_, end) => end
    case Quoting(_, quote, _, _, last, after) => last + [quote] + after
    case Document(_, _, _, word, _, _, tabs) => tabs + word
    case Compound(_, _, closer, _) => closer
    case Case(_, _) => "esac"
    case Fish(_, _, _) => "end"
    case Led(_, _, _) => "}"
    case Braced(_, _) => "}"
    case Subshell(_, _) => ")"
  }

  function BranchLines(lead: string, opener: string, branches: seq<Branch>): seq<string>
    decreases branches, 0
  {
    if branches == [] then []
    else
      [Head(lead, branches[0].condition, opener)] + Lines(branches[0].body)
      + BranchLines("elif", opener, branches[1..])
  }

  function ArmLines(arms: seq<Arm>): seq<string>
    decreases arms, 0
  {
    if arms == [] then []
    else [ArmLine(arms[0].paired, arms[0].pattern, arms[0].text)] + Lines(arms[0].body) + ArmLines(arms[1..])
  }

  function Lines(scripts: seq<Script>): seq<string>
    decreases scripts, 0
  {
    if scripts == [] then [] else Written(scripts[0]) + Lines(scripts[1..])
  }

  function Written(x: Script): seq<string>
    decreases x, 2
  {
    Front(x) + [Last(x)]
  }

  // Made of plain text where text is.
  predicate WellWritten(x: Script)
    decreases x, 1
  {
    match x
    case Plain(text) => IsPlainLine(text, true)
    case Continued(parts, end) =>
      parts != [] && (forall i :: 0 <= i < |parts| ==> IsPlainText(parts[i].text, true)) && IsPlainLine(end, true)
    case Quoting(before, quote, first, middle, last, after) =>
      && IsQuote(quote) && IsPlainText(before, true) && IsPlainText(after, true)
      && IsQuoted(quote, first) && IsQuoted(quote, last) && forall i :: 0 <= i < |middle| ==> IsQuoted(quote, middle[i])
    case Document(before, dashed, form, word, after, content, tabs) =>
      && IsPlainText(before, true) && IsPlainText(after, false) && (after != "" ==> after[0] == ' ')
      && IsOpener(dashed, form, word)
      && (forall i :: 0 <= i < |tabs| ==> tabs[i] == '\t') && (!dashed ==> tabs == "")
      && forall i :: 0 <= i < |content| ==> !Terminates(content[i], Heredoc(word, dashed))
    case Compound(lead, opener, closer, branches) =>
      && lead in LEADS && lead != "elif" && opener in {"then", "do"} && closer in {"fi", "done", "esac"}
      && branches != [] && BranchesWellWritten(lead, branches)
    case Case(subject, arms) => IsPlainText(subject, false) && ArmsWellWritten(arms)
    case Fish(lead, condition, texts) =>
      && lead in LEADS && lead != "elif" && IsPlainText(condition, lead in PREFIXES)
      && forall i :: 0 <= i < |texts| ==> IsPlainLine(texts[i], true)
    case Led(lead, condition, body) =>
      lead in LEADS && lead != "elif" && IsPlainText(condition, lead in PREFIXES) && AllWellWritten(body)
    case Braced(before, body) => IsPlainText(before, true) && AllWellWritten(body)
    case Subshell(before, body) => IsPlainText(before, true) && AllWellWritten(body)
  }

  predicate BranchesWellWritten(lead: string, branches: seq<Branch>)
    decreases branches, 0
  {
    branches == [] ||
    (&& IsPlainText(branches[0].condition, lead in PREFIXES)
     && AllWellWritten(branches[0].body) && BranchesWellWritten("elif", branches[1..]))
  }

  predicate ArmsWellWritten(arms: seq<Arm>)
    decreases arms, 0
  {
    arms == [] ||
    (&& IsPlainText(arms[0].pattern, true) && IsPlainText(arms[0].text, true)
     && AllWellWritten(arms[0].body) && ArmsWellWritten(arms[1..]))
  }

  predicate AllWellWritten(scripts: seq<Script>)
    decreases scripts, 0
  {
    scripts == [] || (WellWritten(scripts[0]) && AllWellWritten(scripts[1..]))
  }

  // ----- several lines -----

  // More is open after the line than in `base`.
  predicate OpenOver(r: Scanned, base: Scan) {
    r.continues || r.scan.quote.Some? || r.scan.heredocs != []
    || r.scan.leads > base.leads || r.scan.blocks > base.blocks || r.scan.parens > base.parens
  }

  // Each of the lines leaves something open.
  predicate Opens(lines: seq<string>, s: Scan, base: Scan) {
    lines == [] || (OpenOver(ReadLine(lines[0], s), base) && Opens(lines[1..], ReadLine(lines[0], s).scan, base))
  }

  lemma {:induction false} OpensBoth(a: seq<string>, b: seq<string>, s: Scan, base: Scan)
    ensures ScanAfter(a + b, s) == ScanAfter(b, ScanAfter(a, s))
    ensures Opens(a + b, s, base) <==> Opens(a, s, base) && Opens(b, ScanAfter(a, s), base)
  {
    hide ReadLine;
    if a == [] {
      assert a + b == b;
    } else {
      OpensBoth(a[1..], b, ReadLine(a[0], s).scan, base);
      assert (a + b)[1..] == a[1..] + b;
    }
  }

  lemma OpensOne(line: string, s: Scan, base: Scan, r: Scanned)
    requires ReadLine(line, s) == r && OpenOver(r, base)
    ensures Opens([line], s, base) && ScanAfter([line], s) == r.scan
  {
    hide ReadLine;
    assert [line][1..] == [];
    assert Opens([], r.scan, base) && ScanAfter([], r.scan) == r.scan;
  }

  // Lines that all leave the same open.
  lemma {:induction false} OpensThroughout(lines: seq<string>, s: Scan, base: Scan)
    requires forall i :: 0 <= i < |lines| ==> ReadLine(lines[i], s).scan == s && OpenOver(ReadLine(lines[i], s), base)
    ensures Opens(lines, s, base) && ScanAfter(lines, s) == s
  {
    hide ReadLine;
    if lines != [] {
      assert forall i :: 0 < i < |lines| ==> lines[1..][i - 1] == lines[i];
      OpensThroughout(lines[1..], s, base);
    }
  }

  // ----- the parentheses a script leaves -----

  // How many parentheses are open after a script that `p` are open before:
  // fewer when a pattern's lone one closes one of them.
  function ParensAfter(x: Script, p: nat): (r: nat)
    ensures r <= p
    decreases x, 1
  {
    match x
    case Compound(_, _, _, branches) => ParensAfterBranches(branches, p)
    case Case(_, arms) => ParensAfterArms(arms, p)
    case Led(_, _, body) => ParensAfterAll(body, p)
    case Braced(_, body) => ParensAfterAll(body, p)
    case Subshell(_, body) => Less(ParensAfterAll(body, p + 1))
    case _ => p
  }

  function ParensAfterAll(scripts: seq<Script>, p: nat): (r: nat)
    ensures r <= p
    decreases scripts, 0
  {
    if scripts == [] then p else ParensAfterAll(scripts[1..], ParensAfter(scripts[0], p))
  }

  function ParensAfterBranches(branches: seq<Branch>, p: nat): (r: nat)
    ensures r <= p
    decreases branches, 0
  {
    if branches == [] then p else ParensAfterBranches(branches[1..], ParensAfterAll(branches[0].body, p))
  }

  function ParensAfterArms(arms: seq<Arm>, p: nat): (r: nat)
    ensures r <= p
    decreases arms, 0
  {
    if arms == [] then p
    else ParensAfterArms(arms[1..], ParensAfterAll(arms[0].body, if arms[0].paired then p else Less(p)))
  }

  // Within a subshell, more than `floor` parentheses are open after each
  // script of its body; other scripts keep something else open to their end.
  predicate Keeps(x: Script, p: nat, floor: nat)
    decreases x, 1
  {
    x.Subshell? ==> KeepsIn(x.body, p + 1, floor)
  }

  predicate KeepsIn(scripts: seq<Script>, p: nat, floor: nat)
    decreases scripts, 0
  {
    scripts == [] ||
    (&& Keeps(scripts[0], p, floor)
     && ParensAfter(scripts[0], p) > floor
     && KeepsIn(scripts[1..], ParensAfter(scripts[0], p), floor))
  }

  function WithParens(s: Scan, p: nat): Scan {
    s.(parens := p)
  }

  // ----- reading a script -----

  lemma NothingOpens(s: Scan, base: Scan)
    ensures Opens([], s, base) && ScanAfter([], s) == s
  {
  }

  lemma OpensLine(line: string, s: Scan, base: Scan)
    ensures Opens([line], s, base) <==> OpenOver(ReadLine(line, s), base)
    ensures ScanAfter([line], s) == ReadLine(line, s).scan
  {
    hide ReadLine;
    assert [line][1..] == [];
    NothingOpens(ReadLine(line, s).scan, base);
    assert ScanAfter([line], s) == ScanAfter([], ReadLine(line, s).scan);
  }

  // Blocks of `base` are open, and maybe more; in no more of them than in
  // `base`, so are its parentheses.
  predicate Within(s: Scan, base: Scan) {
    base.blocks < s.blocks || (base.blocks == s.blocks && base.parens <= s.parens)
  }

  // The lines leave `after` the parentheses that are open, and something more
  // than in `base` is open after each of them, in a block anyway and else
  // when `kept`.
  predicate ReadsTo(lines: seq<string>, s: Scan, after: Scan, base: Scan, kept: bool) {
    && ScanAfter(lines, s) == after
    && (Within(s, base) ==> (Opens(lines, s, base) <==> s.blocks > base.blocks || kept))
  }

  lemma {:induction false} BodyReads(scripts: seq<Script>, s: Scan, base: Scan)
    requires AllWellWritten(scripts) && Ground(s) && base.leads == 0 && base.blocks <= s.blocks
    ensures ReadsTo(Lines(scripts), s, WithParens(s, ParensAfterAll(scripts, s.parens)), base,
                    KeepsIn(scripts, s.parens, base.parens))
    decreases scripts, 0
  {
    if scripts == [] {
      NothingOpens(s, base);
      return;
    }
    var x, p := scripts[0], ParensAfter(scripts[0], s.parens);
    ScriptReads(x, s, base);
    BodyReads(scripts[1..], WithParens(s, p), base);
    BothRead(x, scripts[1..], s, base);
  }

  lemma BothRead(x: Script, rest: seq<Script>, s: Scan, base: Scan)
    requires Ground(s) && base.leads == 0 && base.blocks <= s.blocks
    requires ScriptReadsTo(x, s, base)
    requires var t := WithParens(s, ParensAfter(x, s.parens));
      ReadsTo(Lines(rest), t, WithParens(t, ParensAfterAll(rest, t.parens)), base, KeepsIn(rest, t.parens, base.parens))
    ensures ReadsTo(Lines([x] + rest), s, WithParens(s, ParensAfterAll([x] + rest, s.parens)), base,
                    KeepsIn([x] + rest, s.parens, base.parens))
  {
    hide Front;
    hide Last;
    hide Opens;
    hide ScanAfter;
    hide ReadLine;
    hide Keeps;
    var all, p := [x] + rest, ParensAfter(x, s.parens);
    assert all[0] == x && all[1..] == rest;
    OpensLine(Last(x), ScanAfter(Front(x), s), base);
    OpensBoth(Front(x), [Last(x)], s, base);
    OpensBoth(Written(x), Lines(rest), s, base);
  }

  predicate ScriptReadsTo(x: Script, s: Scan, base: Scan) {
    && ReadLine(Last(x), ScanAfter(Front(x), s)) == Scanned(WithParens(s, ParensAfter(x, s.parens)), false)
    && (Within(s, base) ==>
          (Opens(Front(x), s, base) <==> s.blocks > base.blocks || Keeps(x, s.parens, base.parens)))
  }

  // A line that opens a block, or an arm of one, and its body.
  lemma BlockReads(head: string, r: Scan, scripts: seq<Script>, s: Scan, base: Scan)
    requires AllWellWritten(scripts) && ReadLine(head, s) == Scanned(r, false)
    requires Ground(r) && base.leads == 0 && r.blocks > base.blocks
    ensures Opens([head] + Lines(scripts), s, base)
    ensures ScanAfter([head] + Lines(scripts), s) == WithParens(r, ParensAfterAll(scripts, r.parens))
    decreases scripts, 1
  {
    hide Opens;
    hide ScanAfter;
    hide ReadLine;
    OpensLine(head, s, base);
    BodyReads(scripts, r, base);
    OpensBoth([head], Lines(scripts), s, base);
  }

  lemma {:induction false} BranchesRead(lead: string, opener: string, branches: seq<Branch>, s: Scan, r: Scan,
          base: Scan)
    requires lead in LEADS && opener in {"then", "do"} && BranchesWellWritten(lead, branches)
    requires Ground(s) && base.leads == 0 && r.blocks > base.blocks && (lead != "elif" ==> branches != [])
    requires r == if lead == "elif" then s else s.(blocks := s.blocks + 1)
    ensures Opens(BranchLines(lead, opener, branches), s, base)
    ensures ScanAfter(BranchLines(lead, opener, branches), s) == WithParens(r, ParensAfterBranches(branches, s.parens))
    decreases branches, 2
  {
    hide Opens;
    hide ScanAfter;
    hide ReadLine;
    if branches == [] {
      NothingOpens(s, base);
    } else {
      var head, p := Head(lead, branches[0].condition, opener), ParensAfterAll(branches[0].body, s.parens);
      HeadReads(lead, branches[0].condition, opener, s);
      BlockReads(head, r, branches[0].body, s, base);
      BranchesRead("elif", opener, branches[1..], WithParens(r, p), WithParens(r, p), base);
      OpensBoth([head] + Lines(branches[0].body), BranchLines("elif", opener, branches[1..]), s, base);
    }
  }

  lemma HeadReads(lead: string, condition: string, opener: string, s: Scan)
    requires lead in LEADS && opener in {"then", "do"} && IsPlainText(condition, lead in PREFIXES) && Ground(s)
    requires lead == "elif" ==> s.blocks > 0
    ensures ReadLine(Head(lead, condition, opener), s)
         == Scanned(if lead == "elif" then s else s.(blocks := s.blocks + 1), false)
  {
    hide ScanFrom;
    HeadOpens(lead, condition, opener, s);
  }

  lemma {:induction false} ArmsRead(arms: seq<Arm>, s: Scan, base: Scan)
    requires ArmsWellWritten(arms) && Ground(s) && base.leads == 0 && s.blocks > base.blocks
    ensures Opens(ArmLines(arms), s, base)
    ensures ScanAfter(ArmLines(arms), s) == WithParens(s, ParensAfterArms(arms, s.parens))
    decreases arms, 2
  {
    hide Opens;
    hide ScanAfter;
    hide ReadLine;
    if arms == [] {
      NothingOpens(s, base);
    } else {
      var arm := arms[0];
      var head, p := ArmLine(arm.paired, arm.pattern, arm.text), if arm.paired then s.parens else Less(s.parens);
      ArmReads(arm, s);
      BlockReads(head, WithParens(s, p), arm.body, s, base);
      var t := WithParens(s, ParensAfterAll(arm.body, p));
      ArmsRead(arms[1..], t, base);
      OpensBoth([head] + Lines(arm.body), ArmLines(arms[1..]), s, base);
    }
  }

  lemma ArmReads(arm: Arm, s: Scan)
    requires IsPlainText(arm.pattern, true) && IsPlainText(arm.text, true) && Ground(s)
    ensures ReadLine(ArmLine(arm.paired, arm.pattern, arm.text), s)
         == Scanned(WithParens(s, if arm.paired then s.parens else Less(s.parens)), false)
  {
    hide ScanFrom;
    ArmIsRead(arm.paired, arm.pattern, arm.text, s);
  }

  lemma CaseReads(x: Script, s: Scan, base: Scan)
    requires x.Case? && WellWritten(x) && Ground(s) && base.leads == 0 && base.blocks <= s.blocks
    ensures ScriptReadsTo(x, s, base)
    decreases x, 2
  {
    hide Opens;
    hide ScanAfter;
    var head, within := CaseHead(x.subject), s.(blocks := s.blocks + 1);
    CaseOpens(x.subject, s);
    OpensLine(head, s, base);
    ArmsRead(x.arms, within, base);
    OpensBoth([head], ArmLines(x.arms), s, base);
    CloserCloses("esac", WithParens(within, ParensAfter(x, s.parens)));
  }

  lemma SubshellReads(x: Script, s: Scan, base: Scan)
    requires x.Subshell? && WellWritten(x) && Ground(s) && base.leads == 0 && base.blocks <= s.blocks
    ensures ScriptReadsTo(x, s, base)
    decreases x, 2
  {
    hide Opens;
    hide ScanAfter;
    var head, within := x.before + " (", WithParens(s, s.parens + 1);
    ParenOpens(x.before, s);
    OpensLine(head, s, base);
    BodyReads(x.body, within, base);
    OpensBoth([head], Lines(x.body), s, base);
    ParenCloses(WithParens(s, ParensAfterAll(x.body, s.parens + 1)));
  }

  // A block with a head, a body and a closer.
  lemma BodyIsClosed(x: Script, head: string, scripts: seq<Script>, closer: string, s: Scan, base: Scan)
    requires Front(x) == [head] + Lines(scripts) && Last(x) == closer && !x.Subshell?
    requires AllWellWritten(scripts) && closer == "}" && ParensAfter(x, s.parens) == ParensAfterAll(scripts, s.parens)
    requires ReadLine(head, s) == Scanned(s.(blocks := s.blocks + 1), false)
    requires Ground(s) && base.leads == 0 && base.blocks <= s.blocks
    ensures ScriptReadsTo(x, s, base)
    decreases scripts, 2
  {
    hide Opens;
    hide ScanAfter;
    var within := s.(blocks := s.blocks + 1);
    BlockReads(head, within, scripts, s, base);
    CloserCloses(closer, WithParens(within, ParensAfterAll(scripts, s.parens)));
  }

  lemma ContinuedReads(x: Script, s: Scan, base: Scan)
    requires x.Continued? && WellWritten(x) && Ground(s) && base.leads == 0
    ensures Opens(Front(x), s, base) && ReadLine(Last(x), ScanAfter(Front(x), s)) == Scanned(s, false)
  {
    hide ScanFrom;
    hide Passes;
    forall i | 0 <= i < |x.parts| ensures ReadLine(PartLines(x.parts)[i], s) == Scanned(s, true) {
      PlainThenBackslashes(x.parts[i].text, 2 * x.parts[i].pairs + 1, s);
    }
    OpensThroughout(PartLines(x.parts), s, base);
    PlainLine(x.end, true, s);
  }

  lemma QuotingReads(x: Script, s: Scan, base: Scan)
    requires x.Quoting? && WellWritten(x) && Ground(s) && base.leads == 0
    ensures Opens(Front(x), s, base) && ReadLine(Last(x), ScanAfter(Front(x), s)) == Scanned(s, false)
  {
    var inside, head := s.(quote := Some(x.quote)), x.before + [x.quote] + x.first;
    QuoteOpens(x.before, x.quote, x.first, s);
    OpensOne(head, s, base, Scanned(inside, false));
    QuotedLinesArePassed(x.middle, inside);
    OpensThroughout(x.middle, inside, base);
    OpensBoth([head], x.middle, s, base);
    QuoteCloses(x.last, x.quote, x.after, inside);
    assert inside.(quote := None) == s;
  }

  lemma FishReads(x: Script, s: Scan, base: Scan)
    requires x.Fish? && WellWritten(x) && Ground(s) && base.leads == 0
    ensures Opens(Front(x), s, base) && ReadLine(Last(x), ScanAfter(Front(x), s)) == Scanned(s, false)
  {
    hide ScanFrom;
    hide Passes;
    hide NoteWord;
    var inside, head := s.(leads := s.leads + 1), x.lead + " " + x.condition;
    LeadWaits(x.lead, x.condition, s);
    OpensOne(head, s, base, Scanned(inside, false));
    forall i | 0 <= i < |x.texts| ensures ReadLine(x.texts[i], inside) == Scanned(inside, false) {
      PlainLine(x.texts[i], true, inside);
    }
    OpensThroughout(x.texts, inside, base);
    OpensBoth([head], x.texts, s, base);
    EndNoted(inside);
    WordAlone("end", inside);
  }

  lemma DocumentReads(x: Script, s: Scan, base: Scan)
    requires x.Document? && WellWritten(x) && Ground(s) && base.leads == 0
    ensures Opens(Front(x), s, base) && ReadLine(Last(x), ScanAfter(Front(x), s)) == Scanned(s, false)
  {
    var h := Heredoc(x.word, x.dashed);
    var inside, head := s.(heredocs := [h]), x.before + " " + Opener(x.dashed, x.form, x.word) + x.after;
    DocumentOpens(x.before, x.dashed, x.form, x.word, x.after, s);
    assert s.heredocs + [h] == [h];
    OpensOne(head, s, base, Scanned(inside, false));
    TabsAreStripped(x.tabs, x.word);
    assert !x.dashed ==> x.tabs + x.word == x.word;
    BodyIsPassed(x.content, Last(x), inside);
    OpensThroughout(x.content, inside, base);
    OpensBoth([head], x.content, s, base);
    assert inside.(heredocs := inside.heredocs[1..]) == s;
  }

  // What a script leaves open: after its last line the parentheses it leaves
  // and nothing else; after each line before, something more than in `base`,
  // exactly when it stands in a block or keeps its parentheses.
  lemma {:induction false} ScriptReads(x: Script, s: Scan, base: Scan)
    requires WellWritten(x) && Ground(s) && base.leads == 0 && base.blocks <= s.blocks
    ensures ScriptReadsTo(x, s, base)
    decreases x, 3
  {
    hide Opens;
    hide ScanAfter;
    match x {
      case Plain(text) =>
        PlainLine(text, true, s);
        NothingOpens(s, base);
      case Continued(_, _) => ContinuedReads(x, s, base);
      case Quoting(_, _, _, _, _, _) => QuotingReads(x, s, base);
      case Document(_, _, _, _, _, _, _) => DocumentReads(x, s, base);
      case Compound(lead, opener, closer, branches) =>
        var within := s.(blocks := s.blocks + 1);
        BranchesRead(lead, opener, branches, s, within, base);
        CloserCloses(closer, WithParens(within, ParensAfter(x, s.parens)));
      case Case(_, _) => CaseReads(x, s, base);
      case Fish(_, _, _) => FishReads(x, s, base);
      case Led(lead, condition, body) =>
        LedOpens(lead, condition, s);
        BodyIsClosed(x, LedHead(lead, condition), body, "}", s, base);
      case Braced(before, body) =>
        BraceOpens(before, s);
        BodyIsClosed(x, before + " {", body, "}", s, base);
      case Subshell(_, _) => SubshellReads(x, s, base);
    }
  }

  // Read from `s`, the lines leave something open until the last, which
  // leaves what was.
  predicate IsOne(front: seq<string>, last: string, s: Scan) {
    Opens(front, s, s) && ReadLine(last, ScanAfter(front, s)) == Scanned(s, false)
  }

  // Wherever it stands, a script is one command, with something of its own
  // open after each line but the last and nothing after that, exactly when
  // it keeps the parentheses it opens and leaves those around it.
  lemma ScriptIsOneExactlyWhen(x: Script, s: Scan)
    requires WellWritten(x) && Ground(s)
    ensures IsOne(Front(x), Last(x), s) <==> Keeps(x, s.parens, s.parens) && ParensAfter(x, s.parens) == s.parens
  {
    hide Opens;
    hide ScanAfter;
    hide ReadLine;
    ScriptReads(x, s, s);
  }

  // Within parentheses, where `parens`, a pattern opens the one it closes.
  predicate PairsWithin(x: Script, parens: bool)
    decreases x, 1
  {
    match x
    case Compound(_, _, _, branches) => BranchesPair(branches, parens)
    case Case(_, arms) => ArmsPair(arms, parens)
    case Led(_, _, body) => AllPair(body, parens)
    case Braced(_, body) => AllPair(body, parens)
    case Subshell(_, body) => AllPair(body, true)
    case _ => true
  }

  predicate AllPair(scripts: seq<Script>, parens: bool)
    decreases scripts, 0
  {
    scripts == [] || (PairsWithin(scripts[0], parens) && AllPair(scripts[1..], parens))
  }

  predicate BranchesPair(branches: seq<Branch>, parens: bool)
    decreases branches, 0
  {
    branches == [] || (AllPair(branches[0].body, parens) && BranchesPair(branches[1..], parens))
  }

  predicate ArmsPair(arms: seq<Arm>, parens: bool)
    decreases arms, 0
  {
    arms == [] || ((parens ==> arms[0].paired) && AllPair(arms[0].body, parens) && ArmsPair(arms[1..], parens))
  }

  lemma {:induction false} PairedKeeps(x: Script, parens: bool, p: nat, floor: nat)
    requires PairsWithin(x, parens) && (p > 0 ==> parens) && p >= floor
    ensures ParensAfter(x, p) == p && Keeps(x, p, floor)
    decreases x, 1
  {
    match x {
      case Compound(_, _, _, branches) => PairedBranches(branches, parens, p);
      case Case(_, arms) => PairedArms(arms, parens, p);
      case Led(_, _, body) => PairedBody(body, parens, p, p);
      case Braced(_, body) => PairedBody(body, parens, p, p);
      case Subshell(_, body) => PairedBody(body, true, p + 1, floor);
      case _ =>
    }
  }

  lemma {:induction false} PairedBody(scripts: seq<Script>, parens: bool, p: nat, floor: nat)
    requires AllPair(scripts, parens) && (p > 0 ==> parens) && p >= floor
    ensures ParensAfterAll(scripts, p) == p && (p > floor ==> KeepsIn(scripts, p, floor))
    decreases scripts, 0
  {
    if scripts != [] {
      PairedKeeps(scripts[0], parens, p, floor);
      PairedBody(scripts[1..], parens, p, floor);
    }
  }

  lemma {:induction false} PairedBranches(branches: seq<Branch>, parens: bool, p: nat)
    requires BranchesPair(branches, parens) && (p > 0 ==> parens)
    ensures ParensAfterBranches(branches, p) == p
    decreases branches, 0
  {
    if branches != [] {
      PairedBody(branches[0].body, parens, p, p);
      PairedBranches(branches[1..], parens, p);
    }
  }

  lemma {:induction false} PairedArms(arms: seq<Arm>, parens: bool, p: nat)
    requires ArmsPair(arms, parens) && (p > 0 ==> parens)
    ensures ParensAfterArms(arms, p) == p
    decreases arms, 0
  {
    if arms != [] {
      PairedBody(arms[0].body, parens, p, p);
      PairedArms(arms[1..], parens, p);
    }
  }

  // So it is one wherever it stands when no pattern within parentheses
  // closes one it did not open.
  lemma ScriptIsOne(x: Script, s: Scan, parens: bool)
    requires WellWritten(x) && PairsWithin(x, parens) && Ground(s) && (s.parens > 0 ==> parens)
    ensures IsOne(Front(x), Last(x), s)
  {
    PairedKeeps(x, parens, s.parens, s.parens);
    ScriptIsOneExactlyWhen(x, s);
  }

  // ----- splitting what was written -----

  lemma {:induction false} OpenUntilTheLast(front: seq<string>, last: string, s: Scan)
    requires Opens(front, s, INITIAL) && !IsOpen(ReadLine(last, ScanAfter(front, s)))
    ensures Closes(front + [last], s)
  {
    hide ReadLine;
    if front == [] {
      assert front + [last] == [last];
    } else {
      OpenUntilTheLast(front[1..], last, ReadLine(front[0], s).scan);
      assert (front + [last])[1..] == front[1..] + [last];
    }
  }

  function WrittenEach(scripts: seq<Script>): seq<seq<string>> {
    if scripts == [] then [] else [Written(scripts[0])] + WrittenEach(scripts[1..])
  }

  lemma {:induction false} WrittenFlat(scripts: seq<Script>)
    ensures Flat(WrittenEach(scripts)) == Lines(scripts)
  {
    if scripts != [] {
      WrittenFlat(scripts[1..]);
      assert WrittenEach(scripts)[1..] == WrittenEach(scripts[1..]);
    }
  }

  // A blank line is no command.
  predicate IsCommand(x: Script) {
    x.Plain? ==> !IsBlank(x.text)
  }

  lemma NotBlankAt(line: string, i: nat)
    requires i < |line| && !IsSpace(line[i])
    ensures !IsBlank(line)
  {
  }

  lemma FirstIsNotBlank(x: Script)
    requires WellWritten(x) && IsCommand(x)
    ensures !IsBlank(Written(x)[0])
  {
    hide IsBlank;
    hide IsPlainText;
    assert Written(x) == Front(x) + [Last(x)];
    match x {
      case Plain(text) =>
      case Continued(parts, _) =>
        assert Front(x)[0] == PartLine(parts[0]);
        NotBlankAt(PartLine(parts[0]), |parts[0].text|);
      case Quoting(before, quote, first, _, _, _) =>
        assert Front(x)[0] == before + [quote] + first;
        NotBlankAt(before + [quote] + first, |before|);
      case Document(before, dashed, form, word, after, _, _) =>
        OpenerStarts(dashed, form, word);
        DocumentIsNotBlank(before, Opener(dashed, form, word), after);
        assert Front(x)[0] == before + " " + Opener(dashed, form, word) + after;
      case Compound(lead, opener, _, branches) =>
        assert Front(x) == BranchLines(lead, opener, branches);
        assert Front(x)[0] == Head(lead, branches[0].condition, opener);
        LeadIsNotBlank(lead, " " + branches[0].condition + "; " + opener);
        assert lead + (" " + branches[0].condition + "; " + opener) == Head(lead, branches[0].condition, opener);
      case Case(subject, _) =>
        assert Front(x)[0] == CaseHead(subject);
        NotBlankAt(CaseHead(subject), 0);
      case Fish(lead, condition, _) =>
        assert Front(x)[0] == lead + " " + condition;
        LeadIsNotBlank(lead, " " + condition);
        assert lead + (" " + condition) == lead + " " + condition;
      case Led(lead, condition, _) =>
        assert Front(x)[0] == LedHead(lead, condition);
        LeadIsNotBlank(lead, " " + condition + " {");
        assert lead + (" " + condition + " {") == LedHead(lead, condition);
      case Braced(before, _) =>
        assert Front(x)[0] == before + " {";
        NotBlankAt(before + " {", |before| + 1);
      case Subshell(before, _) =>
        assert Front(x)[0] == before + " (";
        NotBlankAt(before + " (", |before| + 1);
    }
  }

  lemma DocumentIsNotBlank(before: string, opener: string, after: string)
    requires |opener| >= 3 && opener[..2] == "<<"
    ensures !IsBlank(before + " " + opener + after)
  {
    assert opener[0] == opener[..2][0];
    NotBlankAt(before + " " + opener + after, |before| + 1);
  }

  lemma LeadIsNotBlank(lead: string, rest: string)
    requires lead in LEADS
    ensures !IsBlank(lead + rest)
  {
    LeadNoted(lead, " ", INITIAL);
    assert (lead + rest)[0] == lead[0];
    NotBlankAt(lead + rest, 0);
  }

  // Lines that are one command are open until the last of them.
  lemma {:induction false} OpenBeforeTheLast(front: seq<string>, last: string, s: Scan)
    requires Closes(front + [last], s) || StaysOpen(front + [last], s)
    ensures Opens(front, s, INITIAL)
  {
    hide ReadLine;
    if front != [] {
      assert (front + [last])[1..] == front[1..] + [last] && (front + [last])[0] == front[0];
      OpenBeforeTheLast(front[1..], last, ReadLine(front[0], s).scan);
    }
  }

  // Read on its own, a script closes with its last line and not before,
  // exactly when it keeps the parentheses it opens.
  lemma WrittenCloses(x: Script)
    requires WellWritten(x) && IsCommand(x)
    ensures Keeps(x, 0, 0) ==> Closes(Written(x), INITIAL)
    ensures Closes(Written(x), INITIAL) || StaysOpen(Written(x), INITIAL) ==> Keeps(x, 0, 0)
    ensures !IsBlank(Written(x)[0])
  {
    hide ReadLine;
    hide Opens;
    hide ScanAfter;
    hide Closes;
    hide StaysOpen;
    hide Front;
    hide Last;
    FirstIsNotBlank(x);
    ScriptReads(x, INITIAL, INITIAL);
    if Keeps(x, 0, 0) {
      OpenUntilTheLast(Front(x), Last(x), INITIAL);
    }
    if Closes(Written(x), INITIAL) || StaysOpen(Written(x), INITIAL) {
      OpenBeforeTheLast(Front(x), Last(x), INITIAL);
    }
  }

  // The scripts are well written, and none is a blank line.
  predicate AreScripts(scripts: seq<Script>) {
    AllWellWritten(scripts) && forall i :: 0 <= i < |scripts| ==> IsCommand(scripts[i])
  }

  // No script loses to a pattern a parenthesis it opened.
  predicate AllKeep(scripts: seq<Script>) {
    forall i :: 0 <= i < |scripts| ==> Keeps(scripts[i], 0, 0)
  }

  lemma {:induction false} WrittenAreCommands(scripts: seq<Script>)
    requires AreScripts(scripts)
    ensures AllKeep(scripts) ==> AreCommands(WrittenEach(scripts))
    ensures AreCommands(WrittenEach(scripts)) ==> AllKeep(scripts)
  {
    hide Closes;
    hide StaysOpen;
    hide WellWritten;
    hide Keeps;
    hide IsCommand;
    if scripts != [] {
      var rest := scripts[1..];
      assert forall i :: 0 <= i < |rest| ==> rest[i] == scripts[i + 1];
      WrittenCloses(scripts[0]);
      WrittenAreCommands(rest);
      assert WrittenEach(scripts)[1..] == WrittenEach(rest);
      assert AllKeep(scripts) <==> Keeps(scripts[0], 0, 0) && AllKeep(rest);
    }
  }

  lemma {:induction false} SameJoinedSameLines(a: seq<seq<string>>, b: seq<seq<string>>)
    requires JoinEach(a) == JoinEach(b)
    requires forall i :: 0 <= i < |a| ==> a[i] != [] && AreLines(a[i])
    requires forall i :: 0 <= i < |b| ==> b[i] != [] && AreLines(b[i])
    ensures a == b
  {
    assert |JoinEach(a)| == |a| && |JoinEach(b)| == |b|;
    if a != [] {
      assert JoinEach(a)[0] == JoinEach(b)[0] && JoinEach(a)[1..] == JoinEach(b)[1..];
      SplitOfJoined(a[0]);
      SplitOfJoined(b[0]);
      SameJoinedSameLines(a[1..], b[1..]);
      assert a == [a[0]] + a[1..] && b == [b[0]] + b[1..];
    }
  }

  // Scripts written one after the other split into exactly those scripts,
  // each with all its lines, exactly when each keeps the parentheses it opens.
  lemma ScriptsSplitAsWritten(scripts: seq<Script>)
    requires AreScripts(scripts)
    ensures Commands(Lines(scripts)) == WrittenEach(scripts) <==> AllKeep(scripts)
  {
    hide AreScripts;
    hide AllKeep;
    hide AreCommands;
    hide WrittenEach;
    hide Commands;
    WrittenAreCommands(scripts);
    WrittenFlat(scripts);
    CommandsAreCommands(Lines(scripts));
    if AllKeep(scripts) {
      CommandsOfTheirLines(WrittenEach(scripts));
    }
  }

  // And so does their text.
  lemma TextSplitsAsWritten(scripts: seq<Script>)
    requires AreScripts(scripts) && scripts != [] && AreLines(Lines(scripts))
    ensures SplitShellCommands(Join(Lines(scripts), "\n")) == JoinEach(WrittenEach(scripts)) <==> AllKeep(scripts)
  {
    var lines := Lines(scripts);
    ScriptsSplitAsWritten(scripts);
    SplitOfJoined(lines);
    WrittenFlat(scripts);
    if JoinEach(Commands(lines)) == JoinEach(WrittenEach(scripts)) {
      CommandsHaveLines(lines);
      WrittenHaveLines(scripts);
      SameJoinedSameLines(Commands(lines), WrittenEach(scripts));
    }
  }

  lemma CommandsHaveLines(lines: seq<string>)
    requires AreLines(lines)
    ensures forall i :: 0 <= i < |Commands(lines)| ==> Commands(lines)[i] != [] && AreLines(Commands(lines)[i])
  {
    CommandsAreCommands(lines);
    CommandsOfLines(lines);
    forall i | 0 <= i < |Commands(lines)| ensures Commands(lines)[i] != [] && AreLines(Commands(lines)[i]) {
      AreCommandsEach(Commands(lines), i);
    }
  }

  lemma {:induction false} WrittenHaveLines(scripts: seq<Script>)
    requires AreLines(Lines(scripts))
    ensures forall i :: 0 <= i < |WrittenEach(scripts)| ==>
              WrittenEach(scripts)[i] != [] && AreLines(WrittenEach(scripts)[i])
  {
    if scripts != [] {
      assert forall line :: line in Written(scripts[0]) || line in Lines(scripts[1..]) ==> line in Lines(scripts);
      WrittenHaveLines(scripts[1..]);
    }
  }

  // One script by itself is one command exactly when, as a subshell, it
  // keeps its parentheses.
  lemma CommandIsWholeExactlyWhen(x: Script)
    requires WellWritten(x) && IsCommand(x)
    ensures Commands(Written(x)) == [Written(x)] <==> (x.Subshell? ==> KeepsIn(x.body, 1, 0))
  {
    assert [x][1..] == [] && Lines([x]) == Written(x) + [] == Written(x);
    assert WrittenEach([x]) == [Written(x)] && AllWellWritten([x][1..]);
    ScriptsSplitAsWritten([x]);
    assert AllKeep([x]) <==> Keeps([x][0], 0, 0);
  }

  // The smallest subshell that loses its parenthesis: one `case` with one
  // such pattern. The command is cut short at `esac`.
  lemma LoneParenthesisEndsTheOther(before: string, subject: string, pattern: string, text: string)
    requires IsPlainText(before, true) && IsPlainText(subject, false)
    requires IsPlainText(pattern, true) && IsPlainText(text, true)
    ensures var lines := [before + " (", CaseHead(subject), ArmLine(false, pattern, text), "esac"];
      var x := Subshell(before, [Case(subject, [Arm(false, pattern, text, [])])]);
      && Written(x) == lines + [")"] && !KeepsIn(x.body, 1, 0)
      && Commands(Written(x)) == [lines, [")"]]
  {
    var lines := [before + " (", CaseHead(subject), ArmLine(false, pattern, text), "esac"];
    LoneParenthesisWritten(before, subject, Arm(false, pattern, text, []));
    FourLinesRead(before, subject, pattern, text);
    NotBlankAt(")", 0);
    NotBlankAt(before + " (", |before| + 1);
    hide *;
    FourthLineCloses(lines[0], lines[1], lines[2], lines[3]);
    LoneLineCloses(")");
    TwoCommands(lines, [")"]);
  }

  lemma LoneParenthesisWritten(before: string, subject: string, arm: Arm)
    requires !arm.paired && arm.body == []
    ensures var x := Subshell(before, [Case(subject, [arm])]);
      && Written(x) == [before + " (", CaseHead(subject), ArmLine(false, arm.pattern, arm.text), "esac", ")"]
      && !KeepsIn(x.body, 1, 0)
  {
    var inner := Case(subject, [arm]);
    assert [arm][1..] == [] && [inner][1..] == [];
    assert ArmLines([arm]) == [ArmLine(false, arm.pattern, arm.text)] + [] + ArmLines([]);
    assert ArmLines([arm]) == [ArmLine(false, arm.pattern, arm.text)];
    assert Written(inner) == [CaseHead(subject), ArmLine(false, arm.pattern, arm.text), "esac"];
    assert Lines([inner]) == Written(inner) + Lines([]);
    assert Front(Subshell(before, [inner])) == [before + " ("] + Written(inner);
    assert ParensAfterArms([arm], 1) == ParensAfterArms([], ParensAfterAll([], 0)) == 0;
    assert ParensAfter(inner, 1) == 0;
  }

  // The third line closes the parenthesis the first one opened, and the
  // fourth the block the second one did.
  lemma FourthLineCloses(first: string, second: string, third: string, fourth: string)
    requires ReadLine(first, INITIAL) == Scanned(INITIAL.(parens := 1), false)
    requires ReadLine(second, INITIAL.(parens := 1)) == Scanned(INITIAL.(parens := 1, blocks := 1), false)
    requires ReadLine(third, INITIAL.(parens := 1, blocks := 1)) == Scanned(INITIAL.(blocks := 1), false)
    requires ReadLine(fourth, INITIAL.(blocks := 1)) == Scanned(INITIAL, false)
    ensures Closes([first, second, third, fourth], INITIAL)
  {
    hide ReadLine;
    var lines := [first, second, third, fourth];
    assert lines[1..] == [second, third, fourth] && [second, third, fourth][1..] == [third, fourth];
    assert [third, fourth][1..] == [fourth];
    assert Closes([fourth], INITIAL.(blocks := 1));
    assert Closes([third, fourth], INITIAL.(parens := 1, blocks := 1));
    assert Closes([second, third, fourth], INITIAL.(parens := 1));
  }

  lemma LoneLineCloses(line: string)
    requires ReadLine(line, INITIAL) == Scanned(INITIAL, false)
    ensures Closes([line], INITIAL)
  {
  }

  lemma FourLinesRead(before: string, subject: string, pattern: string, text: string)
    requires IsPlainText(before, true) && IsPlainText(subject, false)
    requires IsPlainText(pattern, true) && IsPlainText(text, true)
    ensures var within, inside := INITIAL.(parens := 1), INITIAL.(parens := 1, blocks := 1);
      && ReadLine(before + " (", INITIAL) == Scanned(within, false)
      && ReadLine(CaseHead(subject), within) == Scanned(inside, false)
      && ReadLine(ArmLine(false, pattern, text), inside) == Scanned(INITIAL.(blocks := 1), false)
      && ReadLine("esac", INITIAL.(blocks := 1)) == Scanned(INITIAL, false)
      && ReadLine(")", INITIAL) == Scanned(INITIAL, false)
  {
    hide ScanFrom;
    ParenOpens(before, INITIAL);
    CaseOpens(subject, INITIAL.(parens := 1));
    ArmIsRead(false, pattern, text, INITIAL.(parens := 1, blocks := 1));
    CloserCloses("esac", INITIAL.(blocks := 1));
    ParenCloses(INITIAL);
  }

  lemma TwoCommands(a: seq<string>, b: seq<string>)
    requires a != [] && !IsBlank(a[0]) && Closes(a, INITIAL)
    requires b != [] && !IsBlank(b[0]) && Closes(b, INITIAL)
    ensures Commands(a + b) == [a, b]
  {
    assert [a, b][1..] == [b] && [b][1..] == [] && [a][1..] == [];
    assert AreCommands([b]) && AreCommands([a, b]);
    assert Flat([]) == [] && Flat([b]) == b + [] && Flat([a, b]) == a + Flat([b]);
    assert b + [] == b;
    CommandsOfTheirLines([a, b]);
  }

  // ----- a shift in arithmetic -----

  const SHIFT := "echo $((1 << 2))"

  lemma ShiftParts()
    ensures |SHIFT| == 16 && StartsWithAt(SHIFT, 0, "echo") && StartsWithAt(SHIFT, 5, "$")
            && StartsWithAt(SHIFT, 8, "1")
    ensures SHIFT[4] == SHIFT[9] == ' ' && SHIFT[6] == SHIFT[7] == '(' && SHIFT[14] == SHIFT[15] == ')'
    ensures SHIFT[10..] == "<< 2" + "))"
  {
    assert SHIFT[0..4] == "echo" && SHIFT[5..6] == "$" && SHIFT[8..9] == "1" && SHIFT[10..] == "<< 2))";
  }

  lemma ShiftWords()
    ensures IsWord("echo") && IsWord("$") && IsWord("1") && IsBreak('(') && IsBreak(' ')
    ensures "echo" !in PREFIXES && "1" !in PREFIXES && "echo" !in KEYWORDS && "1" !in KEYWORDS
  {
    assert |"echo"| == 4 && |"1"| == 1;
  }

  lemma ShiftOpener()
    ensures HeredocAt("<< 2" + "))") == Some((Heredoc("2", false), 4))
  {
    var form := Form(" ", false, None);
    assert Before(form) == " " && Delimiter(form, "2") == " 2" && " 2"[..1] == " ";
    assert IsOpener(false, form, "2") && Opener(false, form, "2") == "<< 2";
    assert !IsDelimiter("))"[0]);
    OpenersAreRead(false, form, "2", "))");
  }

  lemma BeforeTheSum()
    ensures ScanFrom(SHIFT, 0, true, INITIAL) == ScanFrom(SHIFT, 6, false, INITIAL)
  {
    hide ScanFrom;
    hide NoteWord;
    ShiftParts();
    ShiftWords();
    hide StartsWithAt;
    hide IsWord;
    hide IsBreak;
    WordIsRead(SHIFT, 0, "echo", true, INITIAL);
    NoKeywordChangesNothing("echo", SHIFT[4..], true, INITIAL);
    BlankIsPassed(SHIFT, 4, false, INITIAL);
    WordIsRead(SHIFT, 5, "$", false, INITIAL);
    NoKeywordChangesNothing("$", SHIFT[6..], false, INITIAL);
  }

  lemma BeforeTheShift()
    ensures ScanFrom(SHIFT, 6, false, INITIAL) == ScanFrom(SHIFT, 10, false, WithParens(INITIAL, 2))
  {
    hide ScanFrom;
    hide NoteWord;
    ShiftParts();
    ShiftWords();
    hide StartsWithAt;
    hide IsWord;
    hide IsBreak;
    var one, two := WithParens(INITIAL, 1), WithParens(INITIAL, 2);
    assert Operator('(', INITIAL) == one && Operator('(', one) == two;
    OperatorIsRead(SHIFT, 6, false, INITIAL);
    OperatorIsRead(SHIFT, 7, true, one);
    WordIsRead(SHIFT, 8, "1", true, two);
    NoKeywordChangesNothing("1", SHIFT[9..], true, two);
    BlankIsPassed(SHIFT, 9, false, two);
  }

  lemma FromTheShiftOn()
    ensures ScanFrom(SHIFT, 10, false, WithParens(INITIAL, 2))
         == Scanned(INITIAL.(heredocs := [Heredoc("2", false)]), false)
  {
    hide ScanFrom;
    hide HeredocAt;
    ShiftParts();
    ShiftOpener();
    hide StartsWithAt;
    var h := Heredoc("2", false);
    var none := INITIAL.(heredocs := [h]);
    var one, two := WithParens(none, 1), WithParens(none, 2);
    assert "<< 2"[..2] == "<<" && "<< 2"[2] == ' ';
    assert WithParens(INITIAL, 2).(heredocs := WithParens(INITIAL, 2).heredocs + [h]) == two;
    assert Operator(')', two) == one && Operator(')', one) == none;
    OpenerIsRead(SHIFT, 10, false, WithParens(INITIAL, 2), "<< 2", "))", h);
    OperatorIsRead(SHIFT, 14, false, two);
    OperatorIsRead(SHIFT, 15, true, one);
    LineIsOver(SHIFT, 16, true, none);
  }

  // The shift is read as the start of a here-document that ends at a line `2`.
  lemma ShiftOpensADocument()
    ensures ReadLine(SHIFT, INITIAL) == Scanned(INITIAL.(heredocs := [Heredoc("2", false)]), false)
  {
    hide ScanFrom;
    BeforeTheSum();
    BeforeTheShift();
    FromTheShiftOn();
  }

  // So the command takes in every line after it up to one that is `2`.
  lemma ShiftTakesTheLinesAfterIt(lines: seq<string>)
    ensures Commands([SHIFT] + lines) == [[SHIFT] + lines] <==> forall i :: 0 <= i < |lines| - 1 ==> lines[i] != "2"
  {
    hide ReadLine;
    hide Commands;
    ShiftOpensADocument();
    ShiftIsNotBlank();
    var all := [SHIFT] + lines;
    assert all[0] == SHIFT && all[1..] == lines;
    OneCommandExactlyWhen(all);
    if lines != [] {
      DocumentLength(lines);
    }
  }

  lemma OneCommandExactlyWhen(lines: seq<string>)
    requires lines != [] && !IsBlank(lines[0])
    ensures Commands(lines) == [lines] <==> CommandLength(lines, INITIAL) == |lines|
  {
    hide ReadLine;
    hide CommandLength;
    var n := CommandLength(lines, INITIAL);
    assert Commands(lines) == [lines[..n]] + Commands(lines[n..]);
    if n == |lines| {
      assert lines[..n] == lines && lines[n..] == [] && Commands([]) == [];
    } else {
      assert Commands(lines)[0] == lines[..n] && |lines[..n]| == n;
    }
  }

  lemma ShiftIsNotBlank()
    ensures !IsBlank(SHIFT)
  {
    assert SHIFT[0] == 'e';
    NotBlankAt(SHIFT, 0);
  }

  lemma {:induction false} DocumentLength(lines: seq<string>)
    requires lines != []
    ensures CommandLength(lines, INITIAL.(heredocs := [Heredoc("2", false)])) == |lines|
       <==> forall i :: 0 <= i < |lines| - 1 ==> lines[i] != "2"
  {
    var s := INITIAL.(heredocs := [Heredoc("2", false)]);
    if lines[0] == "2" {
      BodyIsPassed([], lines[0], s);
    } else {
      assert ReadLine(lines[0], s) == Scanned(s, false);
      if |lines| > 1 {
        DocumentLength(lines[1..]);
        assert forall i :: 0 < i < |lines| - 1 ==> lines[1..][i - 1] == lines[i];
      }
    }
  }
}
