/**
 The command parser of user/sh.c: a recursive-descent parser that moves one cursor along the
 line, records words by where they begin and end, and ends them with NULs in place.
 */
module Shell {
  const MAXARGS := 10
  const NUL := '\0'

  predicate IsSpace(c: char) {
    c == ' ' || c == '\t' || c == '\r' || c == '\n' || c == '\U{0b}'
  }

  predicate IsSymbol(c: char) {
    c == '<' || c == '|' || c == '>' || c == '&' || c == ';' || c == '(' || c == ')'
  }

  predicate IsWordChar(c: char) {
    !IsSpace(c) && !IsSymbol(c) && c != NUL
  }

  datatype Span = Span(lo: nat, hi: nat)

  datatype Mode = Read | Write | Append

  /** A command tree, whose words are spans of the line. */
  datatype Cmd =
    | Exec(args: seq<Span>)
    | Redir(cmd: Cmd, file: Span, mode: Mode)
    | Pipe(left: Cmd, right: Cmd)
    | List(left: Cmd, right: Cmd)
    | Back(cmd: Cmd)

  /** A redirection yet to be put around a command. */
  datatype Arrow = Arrow(file: Span, mode: Mode)

  datatype Result = Ok(cmd: Cmd, at: nat) | Panic

  datatype Arrows = Found(rs: seq<Arrow>, at: nat) | NoFile

  // Tokens. The line ends in a NUL that is not part of it.

  function At(t: string, i: nat): char {
    if i < |t| then t[i] else NUL
  }

  function Skip(t: string, i: nat): (r: nat)
    requires i <= |t|
    ensures i <= r <= |t| && (r < |t| ==> !IsSpace(t[r]))
    ensures i < |t| && !IsSpace(t[i]) ==> r == i
    decreases |t| - i
  {
    if i < |t| && IsSpace(t[i]) then Skip(t, i + 1) else i
  }

  function WordEnd(t: string, i: nat): (r: nat)
    requires i <= |t|
    ensures i <= r <= |t| && (r < |t| ==> IsSpace(t[r]) || IsSymbol(t[r]))
    ensures i < |t| && !IsSpace(t[i]) && !IsSymbol(t[i]) ==> i < r
    decreases |t| - i
  {
    if i < |t| && !IsSpace(t[i]) && !IsSymbol(t[i]) then WordEnd(t, i + 1) else i
  }

  /** kind is NUL, a symbol, '+' for ">>", or 'a' for a word. */
  datatype Token = Token(kind: char, span: Span, next: nat)

  function GetToken(t: string, i: nat): (r: Token)
    requires i <= |t|
    ensures i <= r.span.lo <= r.span.hi <= r.next <= |t|
    ensures r.kind != NUL ==> i < r.next
  {
    var q := Skip(t, i);
    var c := At(t, q);
    var (kind, eq) :=
      if c == NUL then (NUL, q)
      else if c == '>' then (if At(t, q + 1) == '>' then ('+', q + 2) else ('>', q + 1))
      else if IsSymbol(c) then (c, q + 1)
      else ('a', WordEnd(t, q));
    Token(kind, Span(q, eq), Skip(t, eq))
  }

  /** The character that peek compares with those it is given. */
  function Peek(t: string, i: nat): char
    requires i <= |t|
  {
    At(t, Skip(t, i))
  }

  predicate IsRedir(c: char) {
    c == '<' || c == '>'
  }

  predicate EndsWords(c: char) {
    c == '|' || c == ')' || c == '&' || c == ';'
  }

  // The grammar.

  function ModeOf(kind: char): Mode {
    if kind == '<' then Read else if kind == '>' then Write else Append
  }

  function Wrap(c: Cmd, rs: seq<Arrow>): Cmd {
    if rs == [] then c else Redir(Wrap(c, rs[..|rs| - 1]), rs[|rs| - 1].file, rs[|rs| - 1].mode)
  }

  /** parseredirs: the redirections from i on, after those in rs. */
  function Redirs(t: string, rs: seq<Arrow>, i: nat): (r: Arrows)
    requires i <= |t|
    ensures r.Found? ==> i <= r.at <= |t|
    decreases |t| - i
  {
    if !IsRedir(Peek(t, i)) then Found(rs, Skip(t, i)) else
    var op := GetToken(t, Skip(t, i));
    var file := GetToken(t, op.next);
    if op.kind == NUL || file.kind != 'a' then NoFile
    else Redirs(t, rs + [Arrow(file.span, ModeOf(op.kind))], file.next)
  }

  /** The loop of parseexec, after the words and redirections so far. */
  function Words(t: string, args: seq<Span>, rs: seq<Arrow>, i: nat): (r: Result)
    requires i <= |t|
    ensures r.Ok? ==> i <= r.at <= |t|
    decreases |t| - i
  {
    var s := Skip(t, i);
    if EndsWords(Peek(t, i)) then Ok(Wrap(Exec(args), rs), s) else
    var tok := GetToken(t, s);
    if tok.kind == NUL then Ok(Wrap(Exec(args), rs), tok.next)
    else if tok.kind != 'a' || |args| + 1 >= MAXARGS then Panic
    else match Redirs(t, rs, tok.next)
         case NoFile => Panic
         case Found(rs', j) => Words(t, args + [tok.span], rs', j)
  }

  function ParseExec(t: string, i: nat): (r: Result)
    requires i <= |t|
    ensures r.Ok? ==> i <= r.at <= |t|
    decreases |t| - i, 1
  {
    if Peek(t, i) == '(' then ParseBlock(t, Skip(t, i)) else
    match Redirs(t, [], Skip(t, i))
    case NoFile => Panic
    case Found(rs, j) => Words(t, [], rs, j)
  }

  function ParseBlock(t: string, i: nat): (r: Result)
    requires i <= |t|
    ensures r.Ok? ==> i <= r.at <= |t|
    decreases |t| - i, 0
  {
    if Peek(t, i) != '(' then Panic else
    match ParseLine(t, GetToken(t, Skip(t, i)).next)
    case Panic => Panic
    case Ok(c, j) =>
      if Peek(t, j) != ')' then Panic else
      match Redirs(t, [], GetToken(t, Skip(t, j)).next)
      case NoFile => Panic
      case Found(rs, k) => Ok(Wrap(c, rs), k)
  }

  function ParsePipe(t: string, i: nat): (r: Result)
    requires i <= |t|
    ensures r.Ok? ==> i <= r.at <= |t|
    decreases |t| - i, 2
  {
    match ParseExec(t, i)
    case Panic => Panic
    case Ok(c, j) =>
      if Peek(t, j) != '|' then Ok(c, Skip(t, j)) else
      match ParsePipe(t, GetToken(t, Skip(t, j)).next)
      case Panic => Panic
      case Ok(d, k) => Ok(Pipe(c, d), k)
  }

  /** The loop of parseline. */
  function Backs(t: string, c: Cmd, i: nat): (r: (Cmd, nat))
    requires i <= |t|
    ensures i <= r.1 <= |t|
    decreases |t| - i
  {
    if Peek(t, i) != '&' then (c, Skip(t, i)) else Backs(t, Back(c), GetToken(t, Skip(t, i)).next)
  }

  function ParseLine(t: string, i: nat): (r: Result)
    requires i <= |t|
    ensures r.Ok? ==> i <= r.at <= |t|
    decreases |t| - i, 3
  {
    match ParsePipe(t, i)
    case Panic => Panic
    case Ok(c, j) =>
      var (d, k) := Backs(t, c, j);
      if Peek(t, k) != ';' then Ok(d, Skip(t, k)) else
      match ParseLine(t, GetToken(t, Skip(t, k)).next)
      case Panic => Panic
      case Ok(e, m) => Ok(List(d, e), m)
  }

  /** parsecmd: a whole line, with nothing left over. */
  function ParseCmd(t: string): (r: Result) {
    match ParseLine(t, 0)
    case Panic => Panic
    case Ok(c, j) => if Skip(t, j) == |t| then Ok(c, |t|) else Panic
  }

  /** A command tree, whose words are texts. */
  datatype Tree =
    | TExec(args: seq<string>)
    | TRedir(cmd: Tree, file: string, mode: Mode)
    | TPipe(left: Tree, right: Tree)
    | TList(left: Tree, right: Tree)
    | TBack(cmd: Tree)

  function TextOf(t: string, s: Span): string {
    if s.lo <= s.hi <= |t| then t[s.lo..s.hi] else ""
  }

  /** A tree over spans of t, with the text of each. */
  function Text(t: string, c: Cmd): Tree {
    match c
    case Exec(args) => TExec(seq(|args|, k requires 0 <= k < |args| => TextOf(t, args[k])))
    case Redir(d, file, m) => TRedir(Text(t, d), TextOf(t, file), m)
    case Pipe(l, r) => TPipe(Text(t, l), Text(t, r))
    case List(l, r) => TList(Text(t, l), Text(t, r))
    case Back(d) => TBack(Text(t, d))
  }

  // Where recorded words lie, and their ending in place.

  /** A whole word of the line: characters that make a word, and then one that does not, or the end. */
  predicate WordAt(t: string, s: Span) {
    && s.lo < s.hi <= |t|
    && (forall k :: s.lo <= k < s.hi ==> !IsSpace(t[k]) && !IsSymbol(t[k]))
    && (s.hi < |t| ==> IsSpace(t[s.hi]) || IsSymbol(t[s.hi]))
  }

  predicate Spanned(t: string, c: Cmd) {
    match c
    case Exec(args) => forall k :: 0 <= k < |args| ==> WordAt(t, args[k])
    case Redir(d, file, _) => Spanned(t, d) && WordAt(t, file)
    case Pipe(l, r) => Spanned(t, l) && Spanned(t, r)
    case List(l, r) => Spanned(t, l) && Spanned(t, r)
    case Back(d) => Spanned(t, d)
  }

  predicate ArrowsSpanned(t: string, rs: seq<Arrow>) {
    forall k :: 0 <= k < |rs| ==> WordAt(t, rs[k].file)
  }

  lemma {:induction false} WordEndSpans(t: string, i: nat)
    requires i <= |t|
    ensures forall k :: i <= k < WordEnd(t, i) ==> !IsSpace(t[k]) && !IsSymbol(t[k])
    decreases |t| - i
  {
    if i < |t| && !IsSpace(t[i]) && !IsSymbol(t[i]) {
      WordEndSpans(t, i + 1);
    }
  }

  lemma TokenSpans(t: string, i: nat)
    requires i <= |t| && GetToken(t, i).kind == 'a'
    ensures WordAt(t, GetToken(t, i).span)
  {
    WordEndSpans(t, Skip(t, i));
  }

  lemma {:induction false} WrapSpans(t: string, c: Cmd, rs: seq<Arrow>)
    requires Spanned(t, c) && ArrowsSpanned(t, rs)
    ensures Spanned(t, Wrap(c, rs))
    decreases |rs|
  {
    if rs != [] {
      WrapSpans(t, c, rs[..|rs| - 1]);
    }
  }

  lemma {:induction false} RedirsSpan(t: string, rs: seq<Arrow>, i: nat)
    requires i <= |t| && ArrowsSpanned(t, rs) && Redirs(t, rs, i).Found?
    ensures ArrowsSpanned(t, Redirs(t, rs, i).rs)
    decreases |t| - i
  {
    if IsRedir(Peek(t, i)) {
      var op := GetToken(t, Skip(t, i));
      var file := GetToken(t, op.next);
      TokenSpans(t, op.next);
      RedirsSpan(t, rs + [Arrow(file.span, ModeOf(op.kind))], file.next);
    }
  }

  lemma {:induction false} WordsSpan(t: string, args: seq<Span>, rs: seq<Arrow>, i: nat)
    requires i <= |t| && Spanned(t, Exec(args)) && ArrowsSpanned(t, rs) && Words(t, args, rs, i).Ok?
    ensures Spanned(t, Words(t, args, rs, i).cmd)
    decreases |t| - i
  {
    hide WordAt, Redirs, IsSpace, Wrap;
    WrapSpans(t, Exec(args), rs);
    var tok := GetToken(t, Skip(t, i));
    if !EndsWords(Peek(t, i)) && tok.kind != NUL {
      TokenSpans(t, Skip(t, i));
      RedirsSpan(t, rs, tok.next);
      var more := Redirs(t, rs, tok.next);
      WordsSpan(t, args + [tok.span], more.rs, more.at);
    }
  }

  lemma {:induction false} ExecSpans(t: string, i: nat)
    requires i <= |t| && ParseExec(t, i).Ok?
    ensures Spanned(t, ParseExec(t, i).cmd)
    decreases |t| - i, 1
  {
    hide WordAt, Redirs, Words;
    if Peek(t, i) == '(' {
      BlockSpans(t, Skip(t, i));
    } else {
      RedirsSpan(t, [], Skip(t, i));
      var rs := Redirs(t, [], Skip(t, i));
      WordsSpan(t, [], rs.rs, rs.at);
    }
  }

  lemma {:induction false} BlockSpans(t: string, i: nat)
    requires i <= |t| && ParseBlock(t, i).Ok?
    ensures Spanned(t, ParseBlock(t, i).cmd)
    decreases |t| - i, 0
  {
    hide WordAt, Redirs, Words, ParseLine, Wrap;
    var inner := GetToken(t, Skip(t, i)).next;
    LineSpans(t, inner);
    var line := ParseLine(t, inner);
    RedirsSpan(t, [], GetToken(t, Skip(t, line.at)).next);
    WrapSpans(t, line.cmd, Redirs(t, [], GetToken(t, Skip(t, line.at)).next).rs);
  }

  lemma {:induction false} PipeSpans(t: string, i: nat)
    requires i <= |t| && ParsePipe(t, i).Ok?
    ensures Spanned(t, ParsePipe(t, i).cmd)
    decreases |t| - i, 2
  {
    hide WordAt, ParseExec;
    ExecSpans(t, i);
    var left := ParseExec(t, i);
    if Peek(t, left.at) == '|' {
      PipeSpans(t, GetToken(t, Skip(t, left.at)).next);
    }
  }

  lemma {:induction false} BacksSpan(t: string, c: Cmd, i: nat)
    requires i <= |t| && Spanned(t, c)
    ensures Spanned(t, Backs(t, c, i).0)
    decreases |t| - i
  {
    hide WordAt;
    if Peek(t, i) == '&' {
      BacksSpan(t, Back(c), GetToken(t, Skip(t, i)).next);
    }
  }

  lemma {:induction false} LineSpans(t: string, i: nat)
    requires i <= |t| && ParseLine(t, i).Ok?
    ensures Spanned(t, ParseLine(t, i).cmd)
    decreases |t| - i, 3
  {
    hide WordAt, ParsePipe, Backs;
    PipeSpans(t, i);
    var left := ParsePipe(t, i);
    BacksSpan(t, left.cmd, left.at);
    var k := Backs(t, left.cmd, left.at).1;
    if Peek(t, k) == ';' {
      LineSpans(t, GetToken(t, Skip(t, k)).next);
    }
  }

  function Put(b: seq<char>, i: nat): (r: seq<char>)
    ensures |r| == |b|
  {
    if i < |b| then b[i := NUL] else b
  }

  function CutWords(b: seq<char>, args: seq<Span>): (r: seq<char>)
    ensures |r| == |b|
  {
    if args == [] then b else Put(CutWords(b, args[..|args| - 1]), args[|args| - 1].hi)
  }

  /** The line after nulterminate: a NUL at the end of every recorded word. */
  function Cut(b: seq<char>, c: Cmd): (r: seq<char>)
    ensures |r| == |b|
    decreases c
  {
    match c
    case Exec(args) => CutWords(b, args)
    case Redir(d, file, _) => Put(Cut(b, d), file.hi)
    case Pipe(l, r) => Cut(Cut(b, l), r)
    case List(l, r) => Cut(Cut(b, l), r)
    case Back(d) => Cut(b, d)
  }

  /** c records the word s. */
  predicate Has(c: Cmd, s: Span) {
    match c
    case Exec(args) => s in args
    case Redir(d, file, _) => Has(d, s) || s == file
    case Pipe(l, r) => Has(l, s) || Has(r, s)
    case List(l, r) => Has(l, s) || Has(r, s)
    case Back(d) => Has(d, s)
  }

  lemma {:induction false} CutWordsAt(b: seq<char>, args: seq<Span>, p: nat)
    requires p < |b|
    ensures CutWords(b, args)[p] == if exists k :: 0 <= k < |args| && args[k].hi == p then NUL else b[p]
  {
    if args != [] {
      CutWordsAt(b, args[..|args| - 1], p);
    }
  }

  /** A NUL is written where a recorded word ends, and nowhere else. */
  lemma {:induction false} CutAt(b: seq<char>, c: Cmd, p: nat)
    requires p < |b|
    ensures Cut(b, c)[p] == NUL || Cut(b, c)[p] == b[p]
    ensures forall s {:trigger Has(c, s)} :: Has(c, s) && s.hi == p ==> Cut(b, c)[p] == NUL
    ensures Cut(b, c)[p] != b[p] ==> exists s :: Has(c, s) && s.hi == p
    decreases c
  {
    match c
    case Exec(args) =>
      CutWordsAt(b, args, p);
      if k :| 0 <= k < |args| && args[k].hi == p {
        assert Has(c, args[k]);
      }
    case Redir(d, file, _) =>
      CutAt(b, d, p);
      assert Has(c, file);
      assert forall s {:trigger Has(c, s)} :: Has(d, s) ==> Has(c, s);
    case Pipe(l, r) =>
      CutAt(b, l, p);
      CutAt(Cut(b, l), r, p);
      assert forall s {:trigger Has(c, s)} :: Has(l, s) || Has(r, s) ==> Has(c, s);
    case List(l, r) =>
      CutAt(b, l, p);
      CutAt(Cut(b, l), r, p);
      assert forall s {:trigger Has(c, s)} :: Has(l, s) || Has(r, s) ==> Has(c, s);
    case Back(d) =>
      CutAt(b, d, p);
      assert forall s {:trigger Has(c, s)} :: Has(d, s) ==> Has(c, s);
  }

  lemma {:induction false} HasSpanned(t: string, c: Cmd, s: Span)
    requires Spanned(t, c) && Has(c, s)
    ensures WordAt(t, s)
    decreases c
  {
    match c
    case Exec(_) =>
    case Redir(d, file, _) => if s != file { HasSpanned(t, d, s); }
    case Pipe(l, r) => if Has(l, s) { HasSpanned(t, l, s); } else { HasSpanned(t, r, s); }
    case List(l, r) => if Has(l, s) { HasSpanned(t, l, s); } else { HasSpanned(t, r, s); }
    case Back(d) => HasSpanned(t, d, s);
  }

  /** The C string at i. */
  function CString(b: seq<char>, i: nat): string
    decreases |b| - i
  {
    if i < |b| && b[i] != NUL then [b[i]] + CString(b, i + 1) else []
  }

  lemma {:induction false} CStringIs(b: seq<char>, i: nat, j: nat)
    requires i <= j < |b| && b[j] == NUL && forall k :: i <= k < j ==> b[k] != NUL
    ensures CString(b, i) == b[i..j]
    decreases j - i
  {
    if i < j {
      CStringIs(b, i + 1, j);
    }
  }

  /**
   After a successful parse, every recorded word reads from its beginning as exactly its
   text: no NUL that ends one word falls inside another.
   */
  lemma WordsEndInPlace(t: string, s: Span)
    requires (forall k :: 0 <= k < |t| ==> t[k] != NUL) && ParseCmd(t).Ok? && Has(ParseCmd(t).cmd, s)
    ensures CString(Cut(t + [NUL], ParseCmd(t).cmd), s.lo) == TextOf(t, s)
  {
    hide ParseLine, Has, Cut, Spanned, CString, IsSpace, IsSymbol, Skip;
    var c := ParseCmd(t).cmd;
    LineSpans(t, 0);
    HasSpanned(t, c, s);
    var b := Cut(t + [NUL], c);
    CutAt(t + [NUL], c, s.hi);
    forall p | s.lo <= p < s.hi ensures b[p] == t[p] {
      CutAt(t + [NUL], c, p);
      if b[p] != t[p] {
        var other :| Has(c, other) && other.hi == p;
        HasSpanned(t, c, other);
        assert false;
      }
    }
    CStringIs(b, s.lo, s.hi);
    assert b[s.lo..s.hi] == t[s.lo..s.hi];
  }

  /** nulterminate, writing into the line itself. */
  method NulTerminate(a: array<char>, c: Cmd)
    requires forall s {:trigger Has(c, s)} :: Has(c, s) ==> s.hi < a.Length
    modifies a
    ensures a[..] == Cut(old(a[..]), c)
    decreases c
  {
    match c
    case Exec(args) =>
      var i := 0;
      while i < |args|
        invariant 0 <= i <= |args| && a[..] == CutWords(old(a[..]), args[..i])
      {
        assert Has(c, args[i]);
        a[args[i].hi] := NUL;
        assert args[..i + 1][..i] == args[..i];
        i := i + 1;
      }
      assert args[..i] == args;
    case Redir(d, file, _) =>
      assert Has(c, file);
      assert forall s {:trigger Has(d, s)} :: Has(d, s) ==> Has(c, s);
      NulTerminate(a, d);
      a[file.hi] := NUL;
    case Pipe(l, r) =>
      assert forall s {:trigger Has(l, s)} :: Has(l, s) ==> Has(c, s);
      assert forall s {:trigger Has(r, s)} :: Has(r, s) ==> Has(c, s);
      NulTerminate(a, l);
      NulTerminate(a, r);
    case List(l, r) =>
      assert forall s {:trigger Has(l, s)} :: Has(l, s) ==> Has(c, s);
      assert forall s {:trigger Has(r, s)} :: Has(r, s) ==> Has(c, s);
      NulTerminate(a, l);
      NulTerminate(a, r);
    case Back(d) =>
      assert forall s {:trigger Has(d, s)} :: Has(d, s) ==> Has(c, s);
      NulTerminate(a, d);
  }

  /** The parser as it moves its cursor. */
  class Parser {
    const t: string
    var s: nat

    constructor (t: string)
      ensures this.t == t && s == 0
    {
      this.t, s := t, 0;
    }

    method SkipSpaces()
      requires s <= |t|
      modifies this
      ensures s == Skip(t, old(s))
    {
      while s < |t| && IsSpace(t[s])
        invariant s <= |t| && Skip(t, s) == Skip(t, old(s))
      {
        s := s + 1;
      }
    }

    method TakeToken() returns (tok: Token)
      requires s <= |t|
      modifies this
      ensures tok == GetToken(t, old(s)) && s == tok.next
    {
      SkipSpaces();
      var q := s;
      var c := At(t, s);
      var kind := c;
      if c == NUL {
      } else if c == '>' {
        s := s + 1;
        if At(t, s) == '>' {
          kind := '+';
          s := s + 1;
        }
      } else if IsSymbol(c) {
        s := s + 1;
      } else {
        kind := 'a';
        while s < |t| && !IsSpace(t[s]) && !IsSymbol(t[s])
          invariant q <= s <= |t| && WordEnd(t, s) == WordEnd(t, q)
        {
          s := s + 1;
        }
      }
      var eq := s;
      SkipSpaces();
      tok := Token(kind, Span(q, eq), s);
    }

    method Looking(toks: string) returns (r: bool)
      requires s <= |t|
      modifies this
      ensures s == Skip(t, old(s)) && (r <==> Peek(t, old(s)) != NUL && Peek(t, old(s)) in toks)
    {
      SkipSpaces();
      r := At(t, s) != NUL && At(t, s) in toks;
    }

    /** The redirections are collected for the command they will be put around. */
    method Redirections(rs: seq<Arrow>) returns (r: Arrows)
      requires s <= |t|
      modifies this
      ensures r == Redirs(t, rs, old(s)) && (r.Found? ==> s == r.at) && s <= |t|
    {
      var all := rs;
      var more := Looking("<>");
      while more
        invariant s <= |t| && Skip(t, s) == s && (more <==> IsRedir(Peek(t, s)))
        invariant Redirs(t, all, s) == Redirs(t, rs, old(s))
        decreases |t| - s, more
      {
        var op := TakeToken();
        var file := TakeToken();
        if file.kind != 'a' {
          return NoFile;
        }
        all := all + [Arrow(file.span, ModeOf(op.kind))];
        more := Looking("<>");
      }
      r := Found(all, s);
    }

    /** The loop of parseexec. */
    method Arguments(rs: seq<Arrow>) returns (r: Result)
      requires s <= |t|
      modifies this
      ensures r == Words(t, [], rs, old(s)) && (r.Ok? ==> s == r.at) && s <= |t|
    {
      hide Wrap, Redirs;
      var args: seq<Span>, all := [], rs;
      var done := Looking("|)&;");
      while !done
        invariant s <= |t| && Skip(t, s) == s && (done <==> EndsWords(Peek(t, s))) && |args| < MAXARGS
        invariant Words(t, args, all, s) == Words(t, [], rs, old(s))
        decreases |t| - s, !done
      {
        var tok := TakeToken();
        if tok.kind == NUL {
          return Ok(Wrap(Exec(args), all), s);
        }
        if tok.kind != 'a' {
          return Panic;
        }
        args := args + [tok.span];
        if |args| >= MAXARGS {
          return Panic;
        }
        var found := Redirections(all);
        if found.NoFile? {
          return Panic;
        }
        all := found.rs;
        done := Looking("|)&;");
      }
      r := Ok(Wrap(Exec(args), all), s);
    }

    method Execution() returns (r: Result)
      requires s <= |t|
      modifies this
      ensures r == ParseExec(t, old(s)) && (r.Ok? ==> s == r.at) && s <= |t|
      decreases |t| - s, 1
    {
      hide Redirs, Words, ParseBlock;
      var block := Looking("(");
      if block {
        r := Block();
        return;
      }
      var found := Redirections([]);
      if found.NoFile? {
        return Panic;
      }
      r := Arguments(found.rs);
    }

    method Block() returns (r: Result)
      requires s <= |t|
      modifies this
      ensures r == ParseBlock(t, old(s)) && (r.Ok? ==> s == r.at) && s <= |t|
      decreases |t| - s, 0
    {
      hide Redirs, ParseLine;
      var open := Looking("(");
      if !open {
        return Panic;
      }
      var tok := TakeToken();
      var line := Line();
      if line.Panic? {
        return Panic;
      }
      var close := Looking(")");
      if !close {
        return Panic;
      }
      tok := TakeToken();
      var found := Redirections([]);
      if found.NoFile? {
        return Panic;
      }
      r := Ok(Wrap(line.cmd, found.rs), s);
    }

    method Pipeline() returns (r: Result)
      requires s <= |t|
      modifies this
      ensures r == ParsePipe(t, old(s)) && (r.Ok? ==> s == r.at) && s <= |t|
      decreases |t| - s, 2
    {
      hide ParseExec;
      r := Execution();
      if r.Panic? {
        return;
      }
      var pipe := Looking("|");
      if pipe {
        var tok := TakeToken();
        var rest := Pipeline();
        if rest.Panic? {
          return Panic;
        }
        r := Ok(Pipe(r.cmd, rest.cmd), s);
      } else {
        r := Ok(r.cmd, s);
      }
    }

    /** The loop of parseline. */
    method Backgrounds(c: Cmd) returns (d: Cmd)
      requires s <= |t|
      modifies this
      ensures (d, s) == Backs(t, c, old(s))
    {
      d := c;
      var more := Looking("&");
      while more
        invariant s <= |t| && Skip(t, s) == s && (more <==> Peek(t, s) == '&')
        invariant Backs(t, d, s) == Backs(t, c, old(s))
        decreases |t| - s, more
      {
        var tok := TakeToken();
        d := Back(d);
        more := Looking("&");
      }
    }

    method Line() returns (r: Result)
      requires s <= |t|
      modifies this
      ensures r == ParseLine(t, old(s)) && (r.Ok? ==> s == r.at) && s <= |t|
      decreases |t| - s, 3
    {
      hide ParsePipe, Backs;
      r := Pipeline();
      if r.Panic? {
        return;
      }
      var c := Backgrounds(r.cmd);
      var list := Looking(";");
      if list {
        var tok := TakeToken();
        var rest := Line();
        if rest.Panic? {
          return Panic;
        }
        r := Ok(List(c, rest.cmd), s);
      } else {
        r := Ok(c, s);
      }
    }
  }

  /** parsecmd: the line is parsed, must be used up, and has its words ended in place. */
  method ParseLineInPlace(a: array<char>, n: nat) returns (r: Result)
    requires n + 1 == a.Length && a[n] == NUL && forall k :: 0 <= k < n ==> a[k] != NUL
    modifies a
    ensures r == ParseCmd(old(a[..n]))
    ensures r.Panic? ==> a[..] == old(a[..])
    ensures r.Ok? ==> forall s {:trigger Has(r.cmd, s)} :: Has(r.cmd, s) ==>
              CString(a[..], s.lo) == TextOf(old(a[..n]), s)
  {
    hide ParseLine, Has, Spanned, CString, TextOf, Skip;
    var t := a[..n];
    var parser := new Parser(t);
    r := parser.Line();
    if r.Panic? {
      return;
    }
    var leftovers := parser.Looking("");
    if parser.s != n {
      return Panic;
    }
    r := Ok(r.cmd, n);
    LineSpans(t, 0);
    forall s | Has(r.cmd, s) ensures s.hi < a.Length {
      HasSpanned(t, r.cmd, s);
    }
    assert a[..] == t + [NUL];
    NulTerminate(a, r.cmd);
    forall s | Has(r.cmd, s) ensures CString(a[..], s.lo) == TextOf(t, s) {
      WordsEndInPlace(t, s);
    }
  }
}
