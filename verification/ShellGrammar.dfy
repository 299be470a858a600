/**
 The grammar of command lines, and the parser measured against it: the lines that the parser
 accepts are those that the grammar derives, and the tree is what the derivation stands for.
 */
module ShellGrammar {
  import opened Shell

  predicate IsGap(g: string) {
    forall k :: 0 <= k < |g| ==> IsSpace(g[k])
  }

  predicate IsWord(w: string) {
    w != "" && forall k :: 0 <= k < |w| ==> IsWordChar(w[k])
  }

  /** An argument or a redirection, with the whitespace inside and behind it. */
  datatype Item =
    | Word(text: string, gap: string)
    | To(mode: Mode, mid: string, text: string, gap: string)

  /** A derivation, with all the whitespace and parentheses of the line. */
  datatype Form =
    | Simple(items: seq<Item>)
    | Block(open: string, inner: Form, close: string, items: seq<Item>)
    | Piped(left: Form, gap: string, right: Form)
    | Backed(inner: Form, gap: string)
    | Listed(left: Form, gap: string, right: Form)

  /** How loosely a form binds. */
  function Level(f: Form): nat {
    match f
    case Simple(_) => 0
    case Block(_, _, _, _) => 0
    case Piped(_, _, _) => 1
    case Backed(_, _) => 2
    case Listed(_, _, _) => 3
  }

  predicate ItemOk(x: Item) {
    IsWord(x.text) && IsGap(x.gap) && (x.To? ==> IsGap(x.mid))
  }

  /** An argument is kept by whitespace from the word before it. */
  predicate ItemsOk(xs: seq<Item>) {
    xs == [] || (ItemOk(xs[0]) && ItemsOk(xs[1..]) && (|xs| > 1 && xs[0].gap == "" ==> xs[1].To?))
  }

  function WordsOf(xs: seq<Item>): seq<string> {
    if xs == [] then [] else (if xs[0].Word? then [xs[0].text] else []) + WordsOf(xs[1..])
  }

  datatype Target = Target(file: string, mode: Mode)

  function TosOf(xs: seq<Item>): seq<Target> {
    if xs == [] then [] else (if xs[0].To? then [Target(xs[0].text, xs[0].mode)] else []) + TosOf(xs[1..])
  }

  /** The derivations of the grammar: to each of its rules one line. */
  predicate IsForm(f: Form) {
    match f
    case Simple(xs) => ItemsOk(xs) && |WordsOf(xs)| < MAXARGS
    case Block(g, inner, h, xs) => IsGap(g) && IsForm(inner) && IsGap(h) && ItemsOk(xs) && WordsOf(xs) == []
    case Piped(l, g, r) => IsForm(l) && Level(l) == 0 && IsGap(g) && IsForm(r) && Level(r) <= 1
    case Backed(inner, g) => IsForm(inner) && Level(inner) <= 2 && IsGap(g)
    case Listed(l, g, r) => IsForm(l) && Level(l) <= 2 && IsGap(g) && IsForm(r)
  }

  function Symbol(m: Mode): string {
    match m
    case Read => "<"
    case Write => ">"
    case Append => ">>"
  }

  function ShowItem(x: Item): string {
    match x
    case Word(w, g) => w + g
    case To(m, mid, w, g) => Symbol(m) + (mid + (w + g))
  }

  function ShowItems(xs: seq<Item>): string {
    if xs == [] then "" else ShowItem(xs[0]) + ShowItems(xs[1..])
  }

  /** The text that is derived. */
  function Show(f: Form): string {
    match f
    case Simple(xs) => ShowItems(xs)
    case Block(g, inner, h, xs) => "(" + (g + (Show(inner) + (")" + (h + ShowItems(xs)))))
    case Piped(l, g, r) => Show(l) + ("|" + (g + Show(r)))
    case Backed(inner, g) => Show(inner) + ("&" + g)
    case Listed(l, g, r) => Show(l) + (";" + (g + Show(r)))
  }

  /** The redirections around d, the first of them innermost. */
  function Around(d: Tree, ts: seq<Target>): Tree
    decreases |ts|
  {
    if ts == [] then d else Around(TRedir(d, ts[0].file, ts[0].mode), ts[1..])
  }

  /** The command that a derivation stands for. */
  function Meaning(f: Form): Tree {
    match f
    case Simple(xs) => Around(TExec(WordsOf(xs)), TosOf(xs))
    case Block(_, inner, _, xs) => Around(Meaning(inner), TosOf(xs))
    case Piped(l, _, r) => TPipe(Meaning(l), Meaning(r))
    case Backed(inner, _) => TBack(Meaning(inner))
    case Listed(l, _, r) => TList(Meaning(l), Meaning(r))
  }

  predicate NoNul(t: string) {
    forall k :: 0 <= k < |t| ==> t[k] != NUL
  }

  // Trees over spans, and their text.

  function Texts(t: string, spans: seq<Span>): seq<string> {
    seq(|spans|, k requires 0 <= k < |spans| => TextOf(t, spans[k]))
  }

  function Targets(t: string, rs: seq<Arrow>): seq<Target> {
    seq(|rs|, k requires 0 <= k < |rs| => Target(TextOf(t, rs[k].file), rs[k].mode))
  }

  lemma {:induction false} AroundLast(d: Tree, ts: seq<Target>, x: Target)
    ensures Around(d, ts + [x]) == TRedir(Around(d, ts), x.file, x.mode)
    decreases |ts|
  {
    if ts != [] {
      assert (ts + [x])[1..] == ts[1..] + [x];
      AroundLast(TRedir(d, ts[0].file, ts[0].mode), ts[1..], x);
    }
  }

  lemma {:induction false} WrapText(t: string, c: Cmd, rs: seq<Arrow>)
    ensures Text(t, Wrap(c, rs)) == Around(Text(t, c), Targets(t, rs))
    decreases |rs|
  {
    if rs != [] {
      var before, last := rs[..|rs| - 1], rs[|rs| - 1];
      WrapText(t, c, before);
      var x := Target(TextOf(t, last.file), last.mode);
      assert Targets(t, rs) == Targets(t, before) + [x];
      AroundLast(Text(t, c), Targets(t, before), x);
    }
  }

  lemma ExecText(t: string, spans: seq<Span>)
    ensures Text(t, Exec(spans)) == TExec(Texts(t, spans))
  {
    assert Text(t, Exec(spans)).args == Texts(t, spans);
  }

  // Where a text stands.

  /** p stands at i in t. */
  predicate Stands(t: string, i: nat, p: string) {
    i + |p| <= |t| && t[i..i + |p|] == p
  }

  lemma StandsSplit(t: string, i: nat, p: string, q: string)
    requires Stands(t, i, p + q)
    ensures Stands(t, i, p) && Stands(t, i + |p|, q)
  {
    assert t[i..i + |p|] == t[i..i + |p + q|][..|p|] == p;
    assert t[i + |p|..i + |p| + |q|] == t[i..i + |p + q|][|p|..] == q;
  }

  lemma FirstStands(t: string, i: nat, p: string)
    requires Stands(t, i, p) && p != ""
    ensures t[i] == p[0]
  {
    assert t[i] == t[i..i + |p|][0];
  }

  /** A text and one character behind it. */
  lemma StandsBefore(t: string, i: nat, p: string, c: char, q: string)
    requires Stands(t, i, p + ([c] + q))
    ensures Stands(t, i, p) && i + |p| < |t| && t[i + |p|] == c && Stands(t, i + |p| + 1, q)
  {
    StandsSplit(t, i, p, [c] + q);
    StandsSplit(t, i + |p|, [c], q);
    assert t[i + |p|] == t[i + |p|..i + |p| + 1][0];
  }

  lemma {:induction false} SkipGap(t: string, i: nat, g: string)
    requires Stands(t, i, g) && IsGap(g) && (i + |g| < |t| ==> !IsSpace(t[i + |g|]))
    ensures Skip(t, i) == i + |g|
    decreases |g|
  {
    if g != "" {
      assert t[i] == t[i..i + |g|][0] == g[0];
      assert t[i + 1..i + |g|] == t[i..i + |g|][1..] == g[1..];
      SkipGap(t, i + 1, g[1..]);
    }
  }

  /** The character at j, or the end of the line, may follow a form of level n. */
  predicate Ends(t: string, j: nat, n: nat) {
    j == |t| || (j < |t| && (t[j] == ')' || (n <= 2 && (t[j] == ';' || t[j] == '&')) || (n == 0 && t[j] == '|')))
  }

  // What is derived is parsed.

  lemma {:induction false} WordEnds(t: string, i: nat, j: nat)
    requires i <= j <= |t| && (forall k :: i <= k < j ==> IsWordChar(t[k]))
    requires j < |t| ==> !IsWordChar(t[j]) && t[j] != NUL
    ensures WordEnd(t, i) == j
    decreases j - i
  {
    if i < j {
      WordEnds(t, i + 1, j);
    }
  }

  /** At j there is no space, and after a word with no gap nothing that could belong to it. */
  predicate Apart(t: string, j: nat, g: string) {
    j < |t| ==> !IsSpace(t[j]) && (g == "" ==> !IsWordChar(t[j]))
  }

  /** A word and the gap behind it are read as one token. */
  lemma WordToken(t: string, i: nat, w: string, g: string)
    requires NoNul(t) && IsWord(w) && IsGap(g) && Stands(t, i, w + g) && Apart(t, i + |w + g|, g)
    ensures i < |t| && IsWordChar(t[i]) && TextOf(t, Span(i, i + |w|)) == w
    ensures GetToken(t, i) == Token('a', Span(i, i + |w|), i + |w + g|)
  {
    StandsSplit(t, i, w, g);
    var j := i + |w|;
    forall k | i <= k < j ensures IsWordChar(t[k]) {
      assert t[k] == t[i..j][k - i] == w[k - i];
    }
    if g != "" {
      assert t[j] == t[j..j + |g|][0] == g[0];
    }
    WordEnds(t, i, j);
    SkipGap(t, j, g);
  }

  /** parseexec after a word: the redirections, and then what is left of its loop. */
  function Rest(t: string, args: seq<Span>, rs: seq<Arrow>, i: nat): Result
    requires i <= |t|
  {
    match Redirs(t, rs, i)
    case NoFile => Panic
    case Found(rs', j) => Words(t, args, rs', j)
  }

  /** Where the word of an item stands. */
  function Place(x: Item, i: nat): Span {
    var lo := i + if x.To? then |Symbol(x.mode)| + |x.mid| else 0;
    Span(lo, lo + |x.text|)
  }

  lemma OneWord(t: string, args: seq<Span>, rs: seq<Arrow>, i: nat, x: Item)
    requires NoNul(t) && x.Word? && ItemOk(x) && Stands(t, i, ShowItem(x)) && Apart(t, i + |ShowItem(x)|, x.gap)
    requires |args| + 1 < MAXARGS
    ensures TextOf(t, Place(x, i)) == x.text
    ensures Rest(t, args, rs, i) == Rest(t, args + [Place(x, i)], rs, i + |ShowItem(x)|)
  {
    hide NoNul, IsWord, IsGap, Stands, Apart, TextOf, GetToken;
    WordToken(t, i, x.text, x.gap);
    assert Skip(t, i) == i && !IsRedir(Peek(t, i)) && !EndsWords(Peek(t, i));
    assert Redirs(t, rs, i) == Found(rs, i);
  }

  lemma OneTo(t: string, rs: seq<Arrow>, i: nat, x: Item)
    requires NoNul(t) && x.To? && ItemOk(x) && Stands(t, i, ShowItem(x)) && Apart(t, i + |ShowItem(x)|, x.gap)
    ensures TextOf(t, Place(x, i)) == x.text
    ensures Redirs(t, rs, i) == Redirs(t, rs + [Arrow(Place(x, i), x.mode)], i + |ShowItem(x)|)
  {
    hide Redirs, GetToken, NoNul, ItemOk, Skip, TextOf, Stands, Apart;
    ToParts(t, i, x);
    var lo := Place(x, i).lo;
    WordToken(t, lo, x.text, x.gap);
    GapBefore(t, i + |Symbol(x.mode)|, x.mid);
    OpToken(t, i, x.mode);
    RedirStep(t, rs, i, GetToken(t, i), GetToken(t, lo));
  }

  /** The operator, the gap and the word of a redirection. */
  lemma ToParts(t: string, i: nat, x: Item)
    requires x.To? && ItemOk(x) && Stands(t, i, ShowItem(x))
    ensures IsWord(x.text) && IsGap(x.gap) && IsGap(x.mid) && Stands(t, i, Symbol(x.mode))
    ensures Stands(t, i + |Symbol(x.mode)|, x.mid) && Stands(t, Place(x, i).lo, x.text + x.gap)
    ensures Place(x, i).lo + |x.text + x.gap| == i + |ShowItem(x)|
  {
    hide IsWord, IsGap, Stands, Symbol;
    var op := Symbol(x.mode);
    StandsSplit(t, i, op, x.mid + (x.text + x.gap));
    StandsSplit(t, i + |op|, x.mid, x.text + x.gap);
  }

  /** A gap, possibly empty, before a word. */
  lemma GapBefore(t: string, i: nat, g: string)
    requires IsGap(g) && Stands(t, i, g) && i + |g| < |t| && IsWordChar(t[i + |g|])
    ensures Skip(t, i) == i + |g| && t[i] != '>'
  {
    hide Skip, Stands;
    SkipGap(t, i, g);
    if g != "" {
      FirstStands(t, i, g);
    }
  }

  lemma RedirStep(t: string, rs: seq<Arrow>, i: nat, op: Token, file: Token)
    requires i < |t| && IsRedir(t[i]) && op == GetToken(t, i) && op.kind != NUL && file == GetToken(t, op.next)
    requires file.kind == 'a'
    ensures Redirs(t, rs, i) == Redirs(t, rs + [Arrow(file.span, ModeOf(op.kind))], file.next)
  {
    hide GetToken;
    assert Peek(t, i) == t[i];
  }

  lemma OpToken(t: string, i: nat, m: Mode)
    requires Stands(t, i, Symbol(m))
    requires var j := i + |Symbol(m)|; j < |t| && t[j] != '>'
    ensures i < |t| && IsRedir(t[i])
    ensures var op := GetToken(t, i); op.next == Skip(t, i + |Symbol(m)|) && op.kind != NUL && ModeOf(op.kind) == m
  {
    var j := i + |Symbol(m)|;
    assert t[i] == t[i..j][0] == Symbol(m)[0];
    if m.Append? {
      assert t[i + 1] == t[i..j][1] == '>';
    }
  }

  lemma ItemFirst(x: Item)
    requires ItemOk(x)
    ensures ShowItem(x) != "" && if x.Word? then IsWordChar(ShowItem(x)[0]) else IsRedir(ShowItem(x)[0])
  {
  }

  /** What items begin with. */
  lemma ItemsStart(xs: seq<Item>, t: string, i: nat)
    requires ItemsOk(xs) && Stands(t, i, ShowItems(xs)) && Ends(t, i + |ShowItems(xs)|, 0)
    ensures i < |t| ==> !IsSpace(t[i]) && t[i] != '(' && (xs == [] || xs[0].To? ==> !IsWordChar(t[i]))
  {
    if xs != [] {
      hide Stands, Ends, ItemOk, ShowItem;
      ItemFirst(xs[0]);
      StandsSplit(t, i, ShowItem(xs[0]), ShowItems(xs[1..]));
      FirstStands(t, i, ShowItem(xs[0]));
    }
  }

  /** The first item, and where the others stand. */
  lemma ItemsSplit(xs: seq<Item>, t: string, i: nat) returns (j: nat)
    requires xs != [] && ItemsOk(xs) && Stands(t, i, ShowItems(xs)) && Ends(t, i + |ShowItems(xs)|, 0)
    ensures Stands(t, i, ShowItem(xs[0])) && j == i + |ShowItem(xs[0])| <= |t| && Apart(t, j, xs[0].gap)
    ensures Stands(t, j, ShowItems(xs[1..])) && j + |ShowItems(xs[1..])| == i + |ShowItems(xs)|
  {
    hide ItemOk, IsSpace, IsWordChar, ShowItem, Ends;
    j := i + |ShowItem(xs[0])|;
    StandsSplit(t, i, ShowItem(xs[0]), ShowItems(xs[1..]));
    hide Stands;
    ItemsStart(xs[1..], t, j);
  }

  lemma {:induction false} RedirsRead(xs: seq<Item>, t: string, rs: seq<Arrow>, i: nat) returns (more: seq<Arrow>)
    requires NoNul(t) && ItemsOk(xs) && WordsOf(xs) == [] && Stands(t, i, ShowItems(xs))
    requires Ends(t, i + |ShowItems(xs)|, 0)
    ensures Redirs(t, rs, i) == Found(rs + more, i + |ShowItems(xs)|) && Targets(t, more) == TosOf(xs)
    decreases |xs|
  {
    hide Stands, ItemOk, Apart, Redirs, ShowItem, Ends, Place, TextOf;
    if xs == [] {
      more := [];
      RedirsEnd(t, rs, i);
    } else {
      var j := ItemsSplit(xs, t, i);
      OneTo(t, rs, i, xs[0]);
      var a := Arrow(Place(xs[0], i), xs[0].mode);
      var rest := RedirsRead(xs[1..], t, rs + [a], j);
      more := [a] + rest;
      assert rs + [a] + rest == rs + more;
      assert Targets(t, more) == [Target(TextOf(t, a.file), a.mode)] + Targets(t, rest);
    }
  }

  lemma RedirsEnd(t: string, rs: seq<Arrow>, i: nat)
    requires Ends(t, i, 0)
    ensures Redirs(t, rs, i) == Found(rs + [], i)
  {
    assert rs + [] == rs;
  }

  lemma RestEnd(t: string, args: seq<Span>, rs: seq<Arrow>, i: nat)
    requires NoNul(t) && Ends(t, i, 0)
    ensures Rest(t, args, rs, i) == Ok(Wrap(Exec(args), rs), i)
  {
    RedirsEnd(t, rs, i);
  }

  lemma {:induction false} ItemsRead(xs: seq<Item>, t: string, args: seq<Span>, rs: seq<Arrow>, i: nat)
    returns (spans: seq<Span>, more: seq<Arrow>)
    requires NoNul(t) && ItemsOk(xs) && Stands(t, i, ShowItems(xs)) && Ends(t, i + |ShowItems(xs)|, 0)
    requires |args| + |WordsOf(xs)| < MAXARGS
    ensures Rest(t, args, rs, i) == Ok(Wrap(Exec(args + spans), rs + more), i + |ShowItems(xs)|)
    ensures Texts(t, spans) == WordsOf(xs) && Targets(t, more) == TosOf(xs)
    decreases |xs|
  {
    hide Stands, ItemOk, Apart, Redirs, Words, ShowItem, Ends, Place, TextOf, Wrap;
    if xs == [] {
      spans, more := [], [];
      RestEnd(t, args, rs, i);
      assert args + [] == args && rs + [] == rs;
    } else {
      var x, s := xs[0], Place(xs[0], i);
      var j := ItemsSplit(xs, t, i);
      if x.Word? {
        OneWord(t, args, rs, i, x);
        spans, more := ItemsRead(xs[1..], t, args + [s], rs, j);
        assert args + [s] + spans == args + ([s] + spans);
        assert Texts(t, [s] + spans) == [TextOf(t, s)] + Texts(t, spans);
        spans := [s] + spans;
      } else {
        OneTo(t, rs, i, x);
        var a := Arrow(s, x.mode);
        assert Rest(t, args, rs, i) == Rest(t, args, rs + [a], j);
        spans, more := ItemsRead(xs[1..], t, args, rs + [a], j);
        assert rs + [a] + more == rs + ([a] + more);
        assert Targets(t, [a] + more) == [Target(TextOf(t, s), x.mode)] + Targets(t, more);
        more := [a] + more;
      }
    }
  }

  /** What a form begins with. */
  lemma {:induction false} FormStart(f: Form, t: string, i: nat)
    requires IsForm(f) && Stands(t, i, Show(f)) && Ends(t, i + |Show(f)|, 0)
    ensures i < |t| ==> !IsSpace(t[i])
    decreases f
  {
    hide Stands, ItemsOk, ShowItems;
    match f
    case Simple(xs) => ItemsStart(xs, t, i);
    case Block(_, _, _, _) => FirstStands(t, i, Show(f));
    case Piped(l, g, r) => StandsBefore(t, i, Show(l), '|', g + Show(r)); FormStart(l, t, i);
    case Backed(inner, g) => StandsBefore(t, i, Show(inner), '&', g); FormStart(inner, t, i);
    case Listed(l, g, r) => StandsBefore(t, i, Show(l), ';', g + Show(r)); FormStart(l, t, i);
  }

  /** A form behind a gap. */
  lemma GapForm(g: string, f: Form, t: string, i: nat)
    requires IsGap(g) && IsForm(f) && Stands(t, i, g + Show(f)) && Ends(t, i + |g| + |Show(f)|, 0)
    ensures Stands(t, i + |g|, Show(f)) && Skip(t, i) == i + |g|
  {
    hide IsForm, Show, IsSpace;
    StandsSplit(t, i, g, Show(f));
    FormStart(f, t, i + |g|);
    SkipGap(t, i, g);
  }

  /** Two forms with an operator between them. */
  lemma TwoParts(l: Form, op: char, g: string, r: Form, t: string, i: nat, n: nat) returns (j: nat)
    requires IsGap(g) && IsForm(r) && Stands(t, i, Show(l) + ([op] + (g + Show(r))))
    requires Ends(t, i + |Show(l)| + 1 + |g| + |Show(r)|, n)
    ensures Stands(t, i, Show(l)) && j == i + |Show(l)| && j < |t| && t[j] == op
    ensures Skip(t, j + 1) == j + 1 + |g| && Stands(t, j + 1 + |g|, Show(r))
  {
    hide IsForm, Show, Stands, IsGap;
    j := i + |Show(l)|;
    StandsBefore(t, i, Show(l), op, g + Show(r));
    GapForm(g, r, t, j + 1);
  }

  lemma SimpleRead(xs: seq<Item>, t: string, i: nat) returns (c: Cmd)
    requires NoNul(t) && IsForm(Simple(xs)) && Stands(t, i, ShowItems(xs)) && Ends(t, i + |ShowItems(xs)|, 0)
    ensures ParseExec(t, i) == Ok(c, i + |ShowItems(xs)|) && Text(t, c) == Meaning(Simple(xs))
  {
    hide Redirs, Words, Stands, ItemsOk, ShowItems, Wrap, Text, Around;
    ItemsStart(xs, t, i);
    var spans, rs := ItemsRead(xs, t, [], [], i);
    c := Wrap(Exec(spans), rs);
    assert [] + spans == spans && [] + rs == rs;
    RestIsExec(t, i);
    WrapText(t, Exec(spans), rs);
    ExecText(t, spans);
  }

  lemma RestIsExec(t: string, i: nat)
    requires i <= |t| && (i < |t| ==> !IsSpace(t[i]) && t[i] != '(')
    ensures ParseExec(t, i) == Rest(t, [], [], i)
  {
    hide Redirs, Words;
    assert Peek(t, i) != '(' && Skip(t, i) == i;
  }

  function Wrapped(c: Cmd, r: Arrows): Result {
    match r
    case NoFile => Panic
    case Found(rs, k) => Ok(Wrap(c, rs), k)
  }

  /** parseblock, from what is inside the parentheses. */
  lemma BlockIs(t: string, i: nat, c: Cmd, j: nat)
    requires i < |t| && t[i] == '(' && ParseLine(t, Skip(t, i + 1)) == Ok(c, j) && j < |t| && t[j] == ')'
    ensures ParseExec(t, i) == Wrapped(c, Redirs(t, [], Skip(t, j + 1)))
  {
    hide ParseLine, Redirs, Wrap;
    assert GetToken(t, i).next == Skip(t, i + 1) && GetToken(t, j).next == Skip(t, j + 1);
    assert ParseExec(t, i) == ParseBlock(t, i);
  }

  lemma Regroup(p: string, q: string, r: string, s: string)
    ensures p + (q + (r + s)) == p + (q + r + s)
  {
    assert q + (r + s) == q + r + s;
  }

  lemma Parens(t: string, i: nat, p: string, q: string)
    requires Stands(t, i, "(" + (p + ([')'] + q)))
    ensures i < |t| && t[i] == '(' && Stands(t, i + 1, p)
    ensures i + 1 + |p| < |t| && t[i + 1 + |p|] == ')' && Stands(t, i + 1 + |p| + 1, q)
  {
    FirstStands(t, i, "(" + (p + ([')'] + q)));
    StandsSplit(t, i, "(", p + ([')'] + q));
    StandsBefore(t, i + 1, p, ')', q);
  }

  lemma BlockShown(g: string, inner: Form, h: string, xs: seq<Item>)
    requires IsForm(Block(g, inner, h, xs))
    ensures IsGap(g) && IsForm(inner) && IsGap(h) && ItemsOk(xs)
    ensures Show(Block(g, inner, h, xs)) == "(" + (g + Show(inner) + ([')'] + (h + ShowItems(xs))))
  {
    hide IsGap, ItemsOk, ShowItems, WordsOf;
    Regroup("(", g, Show(inner), [')'] + (h + ShowItems(xs)));
  }

  /** Where the parts of a block stand. */
  lemma BlockParts(g: string, inner: Form, h: string, xs: seq<Item>, t: string, i: nat) returns (j: nat)
    requires IsForm(Block(g, inner, h, xs)) && Stands(t, i, Show(Block(g, inner, h, xs)))
    requires Ends(t, i + |Show(Block(g, inner, h, xs))|, 0)
    ensures i < |t| && t[i] == '(' && Skip(t, i + 1) == i + 1 + |g| && Stands(t, i + 1 + |g|, Show(inner))
    ensures j == i + 1 + |g| + |Show(inner)| && j < |t| && t[j] == ')' && Skip(t, j + 1) == j + 1 + |h|
    ensures Stands(t, j + 1 + |h|, ShowItems(xs)) && j + 1 + |h| + |ShowItems(xs)| == i + |Show(Block(g, inner, h, xs))|
  {
    hide Show, IsForm, IsSpace, ItemsOk, ShowItems, Stands, IsGap, Skip;
    j := i + 1 + |g| + |Show(inner)|;
    BlockShown(g, inner, h, xs);
    Parens(t, i, g + Show(inner), h + ShowItems(xs));
    GapForm(g, inner, t, i + 1);
    StandsSplit(t, j + 1, h, ShowItems(xs));
    ItemsStart(xs, t, j + 1 + |h|);
    SkipGap(t, j + 1, h);
  }

  lemma {:induction false} ExecRead(f: Form, t: string, i: nat) returns (c: Cmd)
    requires NoNul(t) && IsForm(f) && Level(f) == 0 && Stands(t, i, Show(f)) && Ends(t, i + |Show(f)|, 0)
    ensures ParseExec(t, i) == Ok(c, i + |Show(f)|) && Text(t, c) == Meaning(f)
    decreases f, 0
  {
    hide ParseExec, ParseLine, Stands, ItemsOk, ShowItems, Redirs, Wrap, Around, Text, NoNul;
    match f
    case Simple(xs) => c := SimpleRead(xs, t, i);
    case Block(g, inner, h, xs) =>
      var j := BlockParts(g, inner, h, xs, t, i);
      var line := LineRead(inner, t, i + 1 + |g|);
      var rs := RedirsRead(xs, t, [], j + 1 + |h|);
      assert [] + rs == rs;
      BlockIs(t, i, line, j);
      c := Wrap(line, rs);
      WrapText(t, line, rs);
    case _ =>
  }

  lemma PipeIs(t: string, i: nat, c: Cmd, j: nat)
    requires i <= |t| && ParseExec(t, i) == Ok(c, j) && Ends(t, j, 0)
    ensures j == |t| || t[j] != '|' ==> ParsePipe(t, i) == Ok(c, j)
    ensures j < |t| && t[j] == '|' && ParsePipe(t, Skip(t, j + 1)).Ok? ==>
              var r := ParsePipe(t, Skip(t, j + 1)); ParsePipe(t, i) == Ok(Pipe(c, r.cmd), r.at)
  {
    hide ParseExec;
    assert j < |t| && t[j] == '|' ==> GetToken(t, j).next == Skip(t, j + 1);
  }

  lemma {:induction false} PipeRead(f: Form, t: string, i: nat) returns (c: Cmd)
    requires NoNul(t) && IsForm(f) && Level(f) <= 1 && Stands(t, i, Show(f)) && Ends(t, i + |Show(f)|, 1)
    ensures ParsePipe(t, i) == Ok(c, i + |Show(f)|) && Text(t, c) == Meaning(f)
    decreases f, 1
  {
    hide ParseExec, ParsePipe, Stands, ItemsOk, NoNul, IsSpace, IsGap, Skip, ShowItems, WordsOf, TosOf, Around, TextOf;
    if f.Piped? {
      var j := TwoParts(f.left, '|', f.gap, f.right, t, i, 1);
      var left := ExecRead(f.left, t, i);
      var right := PipeRead(f.right, t, j + 1 + |f.gap|);
      PipeIs(t, i, left, j);
      c := Pipe(left, right);
    } else {
      c := ExecRead(f, t, i);
      PipeIs(t, i, c, i + |Show(f)|);
    }
  }

  lemma BackIs(t: string, c: Cmd, j: nat)
    requires Ends(t, j, 0)
    ensures Backs(t, c, j) == if j < |t| && t[j] == '&' then Backs(t, Back(c), Skip(t, j + 1)) else (c, j)
  {
    assert j < |t| && t[j] == '&' ==> GetToken(t, j).next == Skip(t, j + 1);
  }

  /** The command read so far, when the loop of parseline is as far as f goes. */
  lemma {:induction false} BacksRead(f: Form, t: string, i: nat) returns (first: Result, c: Cmd)
    requires NoNul(t) && IsForm(f) && Level(f) <= 2 && Stands(t, i, Show(f)) && Ends(t, i + |Show(f)|, 2)
    ensures first == ParsePipe(t, i) && first.Ok? && Backs(t, first.cmd, first.at) == Backs(t, c, i + |Show(f)|)
    ensures Text(t, c) == Meaning(f)
    decreases f, 2
  {
    hide ParsePipe, Stands, ItemsOk, NoNul, Backs, IsGap, ShowItems, WordsOf, TosOf, Around, TextOf;
    if f.Backed? {
      var j := i + |Show(f.inner)|;
      StandsBefore(t, i, Show(f.inner), '&', f.gap);
      SkipGap(t, j + 1, f.gap);
      first, c := BacksRead(f.inner, t, i);
      BackIs(t, c, j);
      c := Back(c);
    } else {
      c := PipeRead(f, t, i);
      first := ParsePipe(t, i);
    }
  }

  lemma LineIs(t: string, i: nat, c: Cmd, j: nat)
    requires i <= |t| && ParsePipe(t, i).Ok? && Ends(t, j, 0)
    requires var p := ParsePipe(t, i); Backs(t, p.cmd, p.at) == (c, j)
    ensures j == |t| || t[j] != ';' ==> ParseLine(t, i) == Ok(c, j)
    ensures j < |t| && t[j] == ';' && ParseLine(t, Skip(t, j + 1)).Ok? ==>
              var r := ParseLine(t, Skip(t, j + 1)); ParseLine(t, i) == Ok(List(c, r.cmd), r.at)
  {
    hide ParsePipe, Backs;
    assert j < |t| && t[j] == ';' ==> GetToken(t, j).next == Skip(t, j + 1);
  }

  lemma {:induction false} LineRead(f: Form, t: string, i: nat) returns (c: Cmd)
    requires NoNul(t) && IsForm(f) && Stands(t, i, Show(f)) && Ends(t, i + |Show(f)|, 3)
    ensures ParseLine(t, i) == Ok(c, i + |Show(f)|) && Text(t, c) == Meaning(f)
    decreases f, 3
  {
    hide ParsePipe, ParseLine, Stands, ItemsOk, NoNul, Backs, IsSpace, IsGap, Skip, ShowItems, WordsOf, TosOf, Around,
         TextOf;
    if f.Listed? {
      var j := TwoParts(f.left, ';', f.gap, f.right, t, i, 3);
      var first, left := BacksRead(f.left, t, i);
      BackIs(t, left, j);
      var right := LineRead(f.right, t, j + 1 + |f.gap|);
      LineIs(t, i, left, j);
      c := List(left, right);
    } else {
      var first, d := BacksRead(f, t, i);
      c := d;
      BackIs(t, c, i + |Show(f)|);
      LineIs(t, i, c, i + |Show(f)|);
    }
  }

  lemma {:induction false} ItemsNoNul(xs: seq<Item>)
    requires ItemsOk(xs)
    ensures NoNul(ShowItems(xs))
  {
    if xs != [] {
      ItemsNoNul(xs[1..]);
    }
  }

  lemma {:induction false} ShowNoNul(f: Form)
    requires IsForm(f)
    ensures NoNul(Show(f))
  {
    hide ItemsOk, ShowItems;
    match f
    case Simple(xs) => ItemsNoNul(xs);
    case Block(_, inner, _, xs) => ShowNoNul(inner); ItemsNoNul(xs);
    case Piped(l, _, r) => ShowNoNul(l); ShowNoNul(r);
    case Backed(inner, _) => ShowNoNul(inner);
    case Listed(l, _, r) => ShowNoNul(l); ShowNoNul(r);
  }

  lemma SkipFirst(t: string, i: nat)
    requires i <= |t|
    ensures ParseLine(t, i) == ParseLine(t, Skip(t, i))
  {
    hide Redirs, Words, ParseBlock;
    assert Skip(t, Skip(t, i)) == Skip(t, i);
    assert ParseExec(t, i) == ParseExec(t, Skip(t, i));
    assert ParsePipe(t, i) == ParsePipe(t, Skip(t, i));
  }

  /** A line that the grammar derives is parsed, as what the derivation stands for. */
  lemma Accepts(lead: string, f: Form)
    requires IsGap(lead) && IsForm(f)
    ensures NoNul(lead + Show(f))
    ensures var r := ParseCmd(lead + Show(f)); r.Ok? && Text(lead + Show(f), r.cmd) == Meaning(f)
  {
    hide ParseLine, IsForm, Show, Meaning, Text;
    var t := lead + Show(f);
    ShowNoNul(f);
    assert t[0..0 + |t|] == t;
    GapForm(lead, f, t, 0);
    var c := LineRead(f, t, |lead|);
    SkipFirst(t, 0);
  }

  // What is parsed is derived.

  lemma {:induction false} SkipIsGap(t: string, i: nat)
    requires i <= |t|
    ensures IsGap(t[i..Skip(t, i)]) && Skip(t, Skip(t, i)) == Skip(t, i)
    decreases |t| - i
  {
    if i < |t| && IsSpace(t[i]) {
      SkipIsGap(t, i + 1);
      assert t[i..Skip(t, i)] == [t[i]] + t[i + 1..Skip(t, i + 1)];
    }
  }

  /** A word, read at its beginning, and the gap behind it. */
  lemma WordForm(t: string, i: nat) returns (x: Item)
    requires NoNul(t) && i <= |t| && Skip(t, i) == i && GetToken(t, i).kind == 'a'
    ensures x.Word? && ItemOk(x)
    ensures var k := GetToken(t, i);
            && ShowItem(x) == t[i..k.next] && i < k.next && Skip(t, k.next) == k.next
            && (x.gap == "" ==> Apart(t, k.next, x.gap))
            && x.text == TextOf(t, k.span)
  {
    hide NoNul;
    TokenSpans(t, i);
    var s := GetToken(t, i).span;
    x := Word(t[i..s.hi], t[s.hi..GetToken(t, i).next]);
    WordChars(t, s);
    SkipIsGap(t, s.hi);
  }

  lemma WordChars(t: string, s: Span)
    requires NoNul(t) && WordAt(t, s)
    ensures IsWord(t[s.lo..s.hi]) && (s.hi < |t| ==> !IsWordChar(t[s.hi]))
  {
    forall k | 0 <= k < s.hi - s.lo ensures IsWordChar(t[s.lo..s.hi][k]) {
      assert t[s.lo..s.hi][k] == t[s.lo + k];
    }
  }

  lemma ToForm(t: string, i: nat) returns (x: Item)
    requires NoNul(t) && i < |t| && IsRedir(t[i]) && GetToken(t, GetToken(t, i).next).kind == 'a'
    ensures x.To? && ItemOk(x)
    ensures var op := GetToken(t, i);
            var k := GetToken(t, op.next);
            && ShowItem(x) == t[i..k.next] && i < k.next && Skip(t, k.next) == k.next
            && (x.gap == "" ==> Apart(t, k.next, x.gap))
            && op.kind != NUL && x.mode == ModeOf(op.kind) && x.text == TextOf(t, k.span)
  {
    hide NoNul, TextOf, IsWord, Apart, GetToken, Skip;
    var op := GetToken(t, i);
    OpForm(t, i);
    var word := WordForm(t, op.next);
    x := To(ModeOf(op.kind), t[op.span.hi..op.next], word.text, word.gap);
    var next := GetToken(t, op.next).next;
    assert t[i..next] == t[i..op.span.hi] + (t[op.span.hi..op.next] + t[op.next..next]);
  }

  lemma OpIs(t: string, i: nat)
    requires i < |t| && IsRedir(t[i])
    ensures var op := GetToken(t, i);
            && op.kind != NUL && op.next == Skip(t, op.span.hi)
            && op.span.hi == (if ModeOf(op.kind).Append? then i + 2 else i + 1)
            && (ModeOf(op.kind).Read? <==> t[i] == '<') && (ModeOf(op.kind).Append? ==> t[i + 1] == '>')
  {
    hide Skip;
    assert Skip(t, i) == i;
  }

  lemma OpForm(t: string, i: nat)
    requires i < |t| && IsRedir(t[i])
    ensures var op := GetToken(t, i);
            && op.kind != NUL && i < op.span.hi && t[i..op.span.hi] == Symbol(ModeOf(op.kind))
            && IsGap(t[op.span.hi..op.next]) && Skip(t, op.next) == op.next
  {
    hide GetToken, Skip, IsGap, IsSpace;
    OpIs(t, i);
    SkipIsGap(t, GetToken(t, i).span.hi);
  }

  /** Items found from i to j. */
  predicate ItemsAt(xs: seq<Item>, t: string, i: nat, j: nat) {
    i <= j <= |t| && ItemsOk(xs) && ShowItems(xs) == t[i..j]
  }

  lemma OneMore(x: Item, xs: seq<Item>, t: string, i: nat, j: nat, k: nat)
    requires i <= j && ItemOk(x) && ItemsAt(xs, t, j, k) && ShowItem(x) == t[i..j]
    requires x.gap == "" ==> Apart(t, j, x.gap)
    ensures ItemsAt([x] + xs, t, i, k)
    ensures WordsOf([x] + xs) == (if x.Word? then [x.text] else []) + WordsOf(xs)
    ensures TosOf([x] + xs) == (if x.To? then [Target(x.text, x.mode)] else []) + TosOf(xs)
  {
    assert ([x] + xs)[0] == x && ([x] + xs)[1..] == xs && t[i..k] == t[i..j] + t[j..k];
    if xs != [] && xs[0].Word? {
      assert t[j] == t[j..k][0] == ShowItems(xs)[0] == xs[0].text[0];
    }
  }

  lemma {:induction false} RedirsForm(t: string, rs: seq<Arrow>, i: nat) returns (xs: seq<Item>, more: seq<Arrow>)
    requires NoNul(t) && i <= |t| && Skip(t, i) == i && Redirs(t, rs, i).Found?
    ensures var r := Redirs(t, rs, i); ItemsAt(xs, t, i, r.at) && r.rs == rs + more && Skip(t, r.at) == r.at
    ensures WordsOf(xs) == [] && TosOf(xs) == Targets(t, more)
    decreases |t| - i
  {
    hide ItemOk, ItemsAt, TextOf, GetToken, Skip, Apart, NoNul, ShowItem;
    if !IsRedir(Peek(t, i)) {
      xs, more := [], [];
      NoItems(t, i);
      assert rs + [] == rs;
    } else {
      var op := GetToken(t, i);
      var file := GetToken(t, op.next);
      var x := ToForm(t, i);
      var a := Arrow(file.span, ModeOf(op.kind));
      xs, more := RedirsForm(t, rs + [a], file.next);
      OneMore(x, xs, t, i, file.next, Redirs(t, rs, i).at);
      assert rs + [a] + more == rs + ([a] + more);
      assert Targets(t, [a] + more) == [Target(TextOf(t, a.file), a.mode)] + Targets(t, more);
      xs, more := [x] + xs, [a] + more;
    }
  }

  lemma NoItems(t: string, i: nat)
    requires i <= |t|
    ensures ItemsAt([], t, i, i)
  {
  }

  lemma {:induction false} RestForm(t: string, args: seq<Span>, rs: seq<Arrow>, i: nat)
    returns (xs: seq<Item>, spans: seq<Span>, more: seq<Arrow>)
    requires NoNul(t) && i <= |t| && Skip(t, i) == i && Rest(t, args, rs, i).Ok? && |args| < MAXARGS
    ensures var r := Rest(t, args, rs, i);
            ItemsAt(xs, t, i, r.at) && r.cmd == Wrap(Exec(args + spans), rs + more) && Skip(t, r.at) == r.at
    ensures WordsOf(xs) == Texts(t, spans) && TosOf(xs) == Targets(t, more) && |args| + |spans| < MAXARGS
    decreases |t| - i
  {
    hide ItemOk, ItemsAt, TextOf, GetToken, Skip, Apart, NoNul, ShowItem, Wrap;
    var at := Rest(t, args, rs, i).at;
    if IsRedir(Peek(t, i)) {
      var op := GetToken(t, i);
      var file := GetToken(t, op.next);
      var x := ToForm(t, i);
      var a := Arrow(file.span, ModeOf(op.kind));
      RedirStep(t, rs, i, op, file);
      xs, spans, more := RestForm(t, args, rs + [a], file.next);
      OneMore(x, xs, t, i, file.next, at);
      assert rs + [a] + more == rs + ([a] + more);
      assert Targets(t, [a] + more) == [Target(TextOf(t, a.file), a.mode)] + Targets(t, more);
      xs, more := [x] + xs, [a] + more;
    } else if EndsWords(Peek(t, i)) || GetToken(t, i).kind == NUL {
      xs, spans, more := [], [], [];
      RestStops(t, args, rs, i);
      NoItems(t, i);
      assert args + [] == args && rs + [] == rs;
    } else {
      var tok := GetToken(t, i);
      var x := WordForm(t, i);
      xs, spans, more := RestForm(t, args + [tok.span], rs, tok.next);
      OneMore(x, xs, t, i, tok.next, at);
      assert args + [tok.span] + spans == args + ([tok.span] + spans);
      assert Texts(t, [tok.span] + spans) == [x.text] + Texts(t, spans);
      xs, spans := [x] + xs, [tok.span] + spans;
    }
  }

  lemma RestStops(t: string, args: seq<Span>, rs: seq<Arrow>, i: nat)
    requires NoNul(t) && i <= |t| && Skip(t, i) == i && !IsRedir(Peek(t, i))
    requires EndsWords(Peek(t, i)) || GetToken(t, i).kind == NUL
    ensures Rest(t, args, rs, i) == Ok(Wrap(Exec(args), rs), i)
  {
  }

  /** A form found from i to j, for the command c. */
  predicate FormAt(f: Form, t: string, i: nat, j: nat, c: Cmd) {
    i <= j <= |t| && IsForm(f) && Show(f) == t[i..j] && Meaning(f) == Text(t, c) && Skip(t, j) == j
  }

  lemma SimpleForm(t: string, i: nat) returns (f: Form)
    requires NoNul(t) && i <= |t| && Skip(t, i) == i && Peek(t, i) != '(' && ParseExec(t, i).Ok?
    ensures var r := ParseExec(t, i); FormAt(f, t, i, r.at, r.cmd) && Level(f) == 0
  {
    hide NoNul, Redirs, Words, Wrap, Text, Around, ItemsOk, ShowItems;
    assert ParseExec(t, i) == Rest(t, [], [], i);
    var xs, spans, rs := RestForm(t, [], [], i);
    f := Simple(xs);
    assert [] + spans == spans && [] + rs == rs;
    WrapText(t, Exec(spans), rs);
    ExecText(t, spans);
  }

  lemma {:induction false} ExecForm(t: string, i: nat) returns (f: Form)
    requires NoNul(t) && i <= |t| && Skip(t, i) == i && ParseExec(t, i).Ok?
    ensures var r := ParseExec(t, i); FormAt(f, t, i, r.at, r.cmd) && Level(f) == 0
    decreases |t| - i, 0
  {
    hide NoNul, ParseLine, FormAt, Redirs, Words, Wrap;
    if Peek(t, i) != '(' {
      f := SimpleForm(t, i);
    } else {
      SkipIsGap(t, i + 1);
      var inner := LineForm(t, Skip(t, i + 1));
      var line := ParseLine(t, Skip(t, i + 1));
      LineStops(inner, t, Skip(t, i + 1), line.at, line.cmd);
      SkipIsGap(t, line.at + 1);
      BlockIs(t, i, line.cmd, line.at);
      f := BlockForm(t, i, inner, line.cmd, line.at);
    }
  }

  lemma LineStops(f: Form, t: string, i: nat, j: nat, c: Cmd)
    requires FormAt(f, t, i, j, c)
    ensures Skip(t, j) == j <= |t|
  {
  }

  lemma BlockText(t: string, i: nat, a: nat, j: nat, b: nat, k: nat)
    requires i < a <= j < b <= k <= |t| && t[i] == '(' && t[j] == ')'
    ensures t[i..k] == "(" + (t[i + 1..a] + (t[a..j] + (")" + (t[j + 1..b] + t[b..k]))))
  {
    assert t[i..k] == [t[i]] + t[i + 1..a] + t[a..j] + [t[j]] + t[j + 1..b] + t[b..k];
  }

  lemma BlockForm(t: string, i: nat, inner: Form, c: Cmd, j: nat) returns (f: Form)
    requires NoNul(t) && i < |t| && t[i] == '(' && FormAt(inner, t, Skip(t, i + 1), j, c) && j < |t| && t[j] == ')'
    requires Redirs(t, [], Skip(t, j + 1)).Found?
    ensures var r := Redirs(t, [], Skip(t, j + 1)); FormAt(f, t, i, r.at, Wrap(c, r.rs)) && Level(f) == 0
  {
    hide NoNul, Redirs, Wrap, Text, Around, ItemsOk, ShowItems, IsSpace, IsGap, TosOf, Skip, WordsOf;
    var a, b := Skip(t, i + 1), Skip(t, j + 1);
    SkipIsGap(t, i + 1);
    SkipIsGap(t, j + 1);
    var xs, rs := RedirsForm(t, [], b);
    assert [] + rs == rs;
    var k := Redirs(t, [], b).at;
    f := Block(t[i + 1..a], inner, t[j + 1..b], xs);
    BlockText(t, i, a, j, b, k);
    WrapText(t, c, rs);
  }

  /** Two forms found with an operator between them. */
  lemma JoinText(t: string, i: nat, j: nat, k: nat)
    requires i <= j < |t| && Skip(t, j + 1) <= k <= |t|
    ensures var b := Skip(t, j + 1);
              IsGap(t[j + 1..b]) && Skip(t, b) == b && t[i..k] == t[i..j] + ([t[j]] + (t[j + 1..b] + t[b..k]))
  {
    hide *;
    SkipIsGap(t, j + 1);
    Slices(t, i, j, Skip(t, j + 1), k);
  }

  lemma Slices(t: string, i: nat, j: nat, b: nat, k: nat)
    requires i <= j < b <= k <= |t|
    ensures t[i..k] == t[i..j] + ([t[j]] + (t[j + 1..b] + t[b..k]))
  {
    assert t[i..k] == t[i..j] + [t[j]] + t[j + 1..b] + t[b..k];
  }

  lemma {:induction false} PipeForm(t: string, i: nat) returns (f: Form)
    requires NoNul(t) && i <= |t| && Skip(t, i) == i && ParsePipe(t, i).Ok?
    ensures var r := ParsePipe(t, i); FormAt(f, t, i, r.at, r.cmd) && Level(f) <= 1
    decreases |t| - i, 1
  {
    hide NoNul, ParseExec, ItemsOk, ShowItems, IsGap, WordsOf, TosOf, Around, TextOf, IsSpace;
    f := ExecForm(t, i);
    var left := ParseExec(t, i);
    var j := left.at;
    if Peek(t, j) == '|' {
      SkipIsGap(t, j + 1);
      var right := PipeForm(t, Skip(t, j + 1));
      JoinText(t, i, j, ParsePipe(t, Skip(t, j + 1)).at);
      f := Piped(f, t[j + 1..Skip(t, j + 1)], right);
    }
  }

  lemma BackedForm(t: string, i: nat, f: Form, c: Cmd, j: nat)
    requires FormAt(f, t, i, j, c) && Level(f) <= 2 && j < |t| && t[j] == '&'
    ensures var k := Skip(t, j + 1); FormAt(Backed(f, t[j + 1..k]), t, i, k, Back(c))
  {
    hide IsSpace, IsGap, Skip;
    var k := Skip(t, j + 1);
    JoinText(t, i, j, k);
    assert t[j + 1..k] + t[k..k] == t[j + 1..k];
  }

  lemma {:induction false} BacksForm(t: string, i: nat, first: Form, c: Cmd, j: nat) returns (f: Form)
    requires FormAt(first, t, i, j, c) && Level(first) <= 2
    ensures var r := Backs(t, c, j); FormAt(f, t, i, r.1, r.0) && Level(f) <= 2
    decreases |t| - j
  {
    hide FormAt, IsSpace;
    f := first;
    LineStops(first, t, i, j, c);
    if Peek(t, j) == '&' {
      var k := Skip(t, j + 1);
      BackedForm(t, i, first, c, j);
      f := BacksForm(t, i, Backed(first, t[j + 1..k]), Back(c), k);
    }
  }

  lemma {:induction false} LineForm(t: string, i: nat) returns (f: Form)
    requires NoNul(t) && i <= |t| && Skip(t, i) == i && ParseLine(t, i).Ok?
    ensures var r := ParseLine(t, i); FormAt(f, t, i, r.at, r.cmd)
    decreases |t| - i, 2
  {
    hide NoNul, ParsePipe, Backs, ItemsOk, ShowItems, IsGap, WordsOf, TosOf, Around, TextOf, IsSpace;
    var first := PipeForm(t, i);
    var p := ParsePipe(t, i);
    f := BacksForm(t, i, first, p.cmd, p.at);
    var j := Backs(t, p.cmd, p.at).1;
    if Peek(t, j) == ';' {
      SkipIsGap(t, j + 1);
      var right := LineForm(t, Skip(t, j + 1));
      JoinText(t, i, j, ParseLine(t, Skip(t, j + 1)).at);
      f := Listed(f, t[j + 1..Skip(t, j + 1)], right);
    }
  }

  /** A line that is parsed is derived by the grammar, and the tree is what the derivation stands for. */
  lemma Derives(t: string) returns (lead: string, f: Form)
    requires NoNul(t) && ParseCmd(t).Ok?
    ensures IsGap(lead) && IsForm(f) && t == lead + Show(f) && Meaning(f) == Text(t, ParseCmd(t).cmd)
  {
    hide NoNul, ParseLine, IsForm, Show, Meaning, Text;
    SkipFirst(t, 0);
    SkipIsGap(t, 0);
    lead := t[..Skip(t, 0)];
    f := LineForm(t, Skip(t, 0));
  }

  /** The grammar derives t, for the command d. */
  ghost predicate Derivable(t: string, d: Tree) {
    exists lead, f {:trigger lead + Show(f)} :: IsGap(lead) && IsForm(f) && t == lead + Show(f) && Meaning(f) == d
  }

  /** The parser accepts exactly what the grammar derives, and a line derives no other command. */
  lemma ParsesExactly(t: string, d: Tree)
    requires NoNul(t)
    ensures Derivable(t, d) <==> ParseCmd(t).Ok? && Text(t, ParseCmd(t).cmd) == d
  {
    hide ParseCmd, IsForm, Show, Meaning, Text, IsGap;
    if ParseCmd(t).Ok? {
      var lead, f := Derives(t);
      assert lead + Show(f) == t;
    }
    if Derivable(t, d) {
      var lead, f :| IsGap(lead) && IsForm(f) && t == lead + Show(f) && Meaning(f) == d;
      Accepts(lead, f);
    }
  }

  // Printing with no parentheses but those that are needed.

  function AsWords(args: seq<string>): seq<Item> {
    if args == [] then [] else [Word(args[0], " ")] + AsWords(args[1..])
  }

  function AsTos(ts: seq<Target>): seq<Item> {
    if ts == [] then [] else [To(ts[0].mode, "", ts[0].file, " ")] + AsTos(ts[1..])
  }

  /** The redirections stand behind the first word. */
  function Weave(args: seq<string>, ts: seq<Target>): seq<Item> {
    if args == [] then AsTos(ts) else AsWords(args[..1]) + (AsTos(ts) + AsWords(args[1..]))
  }

  /** d, with ts around it. */
  function Printed(d: Tree, ts: seq<Target>): Form
    decreases d
  {
    match d
    case TExec(args) => Simple(Weave(args, ts))
    case TRedir(c, file, m) => Printed(c, [Target(file, m)] + ts)
    case TPipe(l, r) => Redirected(Piped(Tight(Printed(l, []), 0), "", Tight(Printed(r, []), 1)), ts)
    case TBack(c) => Redirected(Backed(Tight(Printed(c, []), 2), ""), ts)
    case TList(l, r) => Redirected(Listed(Tight(Printed(l, []), 2), "", Printed(r, [])), ts)
  }

  /** Parentheses where f binds too loosely. */
  function Tight(f: Form, n: nat): Form {
    if Level(f) <= n then f else Block("", f, "", [])
  }

  function Redirected(f: Form, ts: seq<Target>): Form {
    if ts == [] then f else Block("", f, "", AsTos(ts))
  }

  function Print(d: Tree): string {
    Show(Printed(d, []))
  }

  predicate TargetsOk(ts: seq<Target>) {
    forall k :: 0 <= k < |ts| ==> IsWord(ts[k].file)
  }

  predicate Printable(d: Tree) {
    match d
    case TExec(args) => |args| < MAXARGS && forall k :: 0 <= k < |args| ==> IsWord(args[k])
    case TRedir(c, file, _) => Printable(c) && IsWord(file)
    case TPipe(l, r) => Printable(l) && Printable(r)
    case TList(l, r) => Printable(l) && Printable(r)
    case TBack(c) => Printable(c)
  }

  /** Every item is followed by a space. */
  predicate Spaced(xs: seq<Item>) {
    forall k :: 0 <= k < |xs| ==> ItemOk(xs[k]) && xs[k].gap == " "
  }

  lemma {:induction false} SpacedOk(xs: seq<Item>)
    requires Spaced(xs)
    ensures ItemsOk(xs)
  {
    if xs != [] {
      SpacedOk(xs[1..]);
    }
  }

  lemma {:induction false} WordsBoth(xs: seq<Item>, ys: seq<Item>)
    ensures WordsOf(xs + ys) == WordsOf(xs) + WordsOf(ys)
  {
    if xs == [] {
      assert xs + ys == ys;
    } else {
      var one := if xs[0].Word? then [xs[0].text] else [];
      assert (xs + ys)[0] == xs[0] && (xs + ys)[1..] == xs[1..] + ys;
      WordsBoth(xs[1..], ys);
      assert one + (WordsOf(xs[1..]) + WordsOf(ys)) == one + WordsOf(xs[1..]) + WordsOf(ys);
    }
  }

  lemma {:induction false} TosBoth(xs: seq<Item>, ys: seq<Item>)
    ensures TosOf(xs + ys) == TosOf(xs) + TosOf(ys)
  {
    if xs == [] {
      assert xs + ys == ys;
    } else {
      var one := if xs[0].To? then [Target(xs[0].text, xs[0].mode)] else [];
      assert (xs + ys)[0] == xs[0] && (xs + ys)[1..] == xs[1..] + ys;
      TosBoth(xs[1..], ys);
      assert one + (TosOf(xs[1..]) + TosOf(ys)) == one + TosOf(xs[1..]) + TosOf(ys);
    }
  }

  lemma Both(xs: seq<Item>, ys: seq<Item>)
    ensures WordsOf(xs + ys) == WordsOf(xs) + WordsOf(ys) && TosOf(xs + ys) == TosOf(xs) + TosOf(ys)
  {
    hide WordsOf, TosOf;
    WordsBoth(xs, ys);
    TosBoth(xs, ys);
  }

  lemma {:induction false} AsWordsIs(args: seq<string>)
    requires forall k :: 0 <= k < |args| ==> IsWord(args[k])
    ensures Spaced(AsWords(args)) && WordsOf(AsWords(args)) == args && TosOf(AsWords(args)) == []
  {
    if args != [] {
      AsWordsIs(args[1..]);
    }
  }

  lemma {:induction false} AsTosIs(ts: seq<Target>)
    requires TargetsOk(ts)
    ensures Spaced(AsTos(ts)) && WordsOf(AsTos(ts)) == [] && TosOf(AsTos(ts)) == ts
  {
    if ts != [] {
      AsTosIs(ts[1..]);
    }
  }

  lemma WeaveIs(args: seq<string>, ts: seq<Target>)
    requires TargetsOk(ts) && forall k :: 0 <= k < |args| ==> IsWord(args[k])
    ensures ItemsOk(Weave(args, ts)) && WordsOf(Weave(args, ts)) == args && TosOf(Weave(args, ts)) == ts
  {
    hide TargetsOk, IsWord, ItemOk, ItemsOk, WordsOf, TosOf, AsTos, AsWords;
    AsTosIs(ts);
    if args != [] {
      AsWordsIs(args[..1]);
      AsWordsIs(args[1..]);
      Both(AsTos(ts), AsWords(args[1..]));
      Both(AsWords(args[..1]), AsTos(ts) + AsWords(args[1..]));
      assert args[..1] + args[1..] == args;
    }
    SpacedOk(Weave(args, ts));
  }

  lemma TightIs(f: Form, n: nat)
    requires IsForm(f)
    ensures IsForm(Tight(f, n)) && Level(Tight(f, n)) <= n && Meaning(Tight(f, n)) == Meaning(f)
  {
  }

  lemma RedirectedIs(f: Form, ts: seq<Target>)
    requires IsForm(f) && TargetsOk(ts)
    ensures IsForm(Redirected(f, ts)) && Meaning(Redirected(f, ts)) == Around(Meaning(f), ts)
  {
    AsTosIs(ts);
    SpacedOk(AsTos(ts));
  }

  lemma {:induction false} PrintedIs(d: Tree, ts: seq<Target>)
    requires Printable(d) && TargetsOk(ts)
    ensures IsForm(Printed(d, ts)) && Meaning(Printed(d, ts)) == Around(d, ts)
    decreases d
  {
    hide Tight, Redirected, IsWord, Weave, Level, ItemsOk, WordsOf, TosOf;
    match d
    case TExec(args) => WeaveIs(args, ts);
    case TRedir(c, file, m) =>
      PrintedIs(c, [Target(file, m)] + ts);
      assert ([Target(file, m)] + ts)[1..] == ts;
    case TPipe(l, r) =>
      PrintedIs(l, []);
      PrintedIs(r, []);
      TightIs(Printed(l, []), 0);
      TightIs(Printed(r, []), 1);
      RedirectedIs(Piped(Tight(Printed(l, []), 0), "", Tight(Printed(r, []), 1)), ts);
    case TBack(c) =>
      PrintedIs(c, []);
      TightIs(Printed(c, []), 2);
      RedirectedIs(Backed(Tight(Printed(c, []), 2), ""), ts);
    case TList(l, r) =>
      PrintedIs(l, []);
      PrintedIs(r, []);
      TightIs(Printed(l, []), 2);
      RedirectedIs(Listed(Tight(Printed(l, []), 2), "", Printed(r, [])), ts);
  }

  lemma {:induction false} ItemsPrintable(xs: seq<Item>)
    requires ItemsOk(xs)
    ensures TargetsOk(TosOf(xs)) && forall k :: 0 <= k < |WordsOf(xs)| ==> IsWord(WordsOf(xs)[k])
  {
    if xs != [] {
      ItemsPrintable(xs[1..]);
    }
  }

  lemma {:induction false} AroundPrintable(d: Tree, ts: seq<Target>)
    requires Printable(d) && TargetsOk(ts)
    ensures Printable(Around(d, ts))
    decreases |ts|
  {
    if ts != [] {
      AroundPrintable(TRedir(d, ts[0].file, ts[0].mode), ts[1..]);
    }
  }

  /** The printable commands are those that the parser can come up with. */
  lemma {:induction false} MeaningPrintable(f: Form)
    requires IsForm(f)
    ensures Printable(Meaning(f))
  {
    hide IsWord, ItemsOk;
    match f
    case Simple(xs) =>
      ItemsPrintable(xs);
      AroundPrintable(TExec(WordsOf(xs)), TosOf(xs));
    case Block(_, inner, _, xs) =>
      MeaningPrintable(inner);
      ItemsPrintable(xs);
      AroundPrintable(Meaning(inner), TosOf(xs));
    case Piped(l, _, r) => MeaningPrintable(l); MeaningPrintable(r);
    case Backed(inner, _) => MeaningPrintable(inner);
    case Listed(l, _, r) => MeaningPrintable(l); MeaningPrintable(r);
  }

  /** Every printable command, printed and parsed, is the command again. */
  lemma RoundTrip(d: Tree)
    requires Printable(d)
    ensures ParseCmd(Print(d)).Ok? && Text(Print(d), ParseCmd(Print(d)).cmd) == d
  {
    hide ParseCmd, Printed, IsForm, Show, Meaning, Text;
    PrintedIs(d, []);
    Accepts("", Printed(d, []));
    assert "" + Print(d) == Print(d);
  }

  /** Whatever is parsed, printed and parsed again, is the same command. */
  lemma Reprinted(t: string)
    requires NoNul(t) && ParseCmd(t).Ok?
    ensures var d := Text(t, ParseCmd(t).cmd); ParseCmd(Print(d)).Ok? && Text(Print(d), ParseCmd(Print(d)).cmd) == d
  {
    hide ParseCmd, IsForm, Show, Meaning, Text, Print;
    var lead, f := Derives(t);
    MeaningPrintable(f);
    RoundTrip(Meaning(f));
  }
}
