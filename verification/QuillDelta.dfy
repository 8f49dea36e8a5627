/**
 Preparing a Quill document for rendering: text is cut at newlines, the pieces are
 grouped into lines, adjacent code-block lines become one group, and blank lines at the
 end are dropped.
 */
module QuillDelta {
  import opened Wrappers

  datatype Json = JBool(b: bool) | JText(s: string) | JNumber(n: int) {
    predicate Truthy() {
      match this
      case JBool(b) => b
      case JText(s) => s != ""
      case JNumber(n) => n != 0
    }
  }

  type Attributes = map<string, Json>

  datatype Insert = Text(text: string) | Embed(fields: map<string, Json>)

  datatype Op = Op(insert: Insert, attributes: Option<Attributes>)

  datatype Group = Group(children: seq<Op>, attributes: Option<Attributes>)

  predicate IsCode(attributes: Option<Attributes>)
  {
    attributes.Some? && "code-block" in attributes.value && attributes.value["code-block"].Truthy()
  }

  predicate IsLine(op: Op)
  {
    op.insert.Text? && op.insert.text != "" && op.insert.text[|op.insert.text| - 1] == '\n'
  }

  // ----- cutting text at newlines

  /** The length of the first match of "a run of other characters and an optional newline, or a newline". */
  function TokenLength(s: string): (n: nat)
    requires s != ""
    ensures 1 <= n <= |s|
  {
    if s[0] == '\n' || |s| == 1 then 1 else 1 + TokenLength(s[1..])
  }

  function Tokens(s: string): seq<string>
    decreases |s|
  {
    if s == "" then [] else [s[..TokenLength(s)]] + Tokens(s[TokenLength(s)..])
  }

  function WithAttributes(tokens: seq<string>, attributes: Option<Attributes>): seq<Op>
  {
    seq(|tokens|, i requires 0 <= i < |tokens| => Op(Text(tokens[i]), attributes))
  }

  function LinesOf(node: Op): seq<Op>
  {
    match node.insert
    case Text(s) => WithAttributes(Tokens(s), node.attributes)
    case Embed(_) => [node]
  }

  function Lines(nodes: seq<Op>): seq<Op>
  {
    if nodes == [] then [] else Lines(nodes[..|nodes| - 1]) + LinesOf(nodes[|nodes| - 1])
  }

  // ----- grouping lines

  /** The groups finished so far and the children waiting for the end of their line. */
  datatype State = State(result: seq<Group>, pending: seq<Op>)

  function Feed(st: State, node: Op): State
  {
    if IsLine(node) then
      var children := st.pending + [Op(node.insert, None)];
      var n := |st.result| - 1;
      if st.result != [] && IsCode(st.result[n].attributes) && IsCode(node.attributes) then
        State(st.result[n := Group(st.result[n].children + children, st.result[n].attributes)], [])
      else
        State(st.result + [Group(children, node.attributes)], [])
    else
      State(st.result, st.pending + [node])
  }

  function FeedAll(st: State, lines: seq<Op>): State
  {
    if lines == [] then st else Feed(FeedAll(st, lines[..|lines| - 1]), lines[|lines| - 1])
  }

  const EMPTY := State([], [])

  /** A document need not end in a newline; what is pending then becomes the last group. */
  function Finish(st: State): seq<Group>
  {
    if st.pending != [] then st.result + [Group(st.pending, None)] else st.result
  }

  predicate IsBlank(g: Group)
  {
    |g.children| == 1 && g.children[0] == Op(Text("\n"), None)
  }

  function Trim(groups: seq<Group>): (trimmed: seq<Group>)
    ensures |trimmed| <= |groups|
  {
    if groups != [] && IsBlank(groups[|groups| - 1]) then Trim(groups[..|groups| - 1]) else groups
  }

  function Grouped(nodes: seq<Op>): seq<Group>
  {
    Finish(FeedAll(EMPTY, Lines(nodes)))
  }

  function Preprocessed(nodes: seq<Op>): seq<Group>
  {
    Trim(Grouped(nodes))
  }

  method PreprocessQuillDeltaForRendering(nodes: seq<Op>) returns (result: seq<Group>)
    ensures result == Preprocessed(nodes)
  {
    hide Tokens, IsLine, IsCode, IsBlank, Lines, FeedAll, WithAttributes;
    NothingFed();
    var lines: seq<Op> := [];
    for i := 0 to |nodes|
      invariant lines == Lines(nodes[..i])
    {
      var node := nodes[i];
      LinesUpTo(nodes, i);
      if node.insert.Text? {
        var matches := Tokens(node.insert.text);
        ghost var before := lines;
        TokensUpTo(matches, node.attributes);
        for j := 0 to |matches|
          invariant lines == before + WithAttributes(matches[..j], node.attributes)
        {
          lines := lines + [Op(Text(matches[j]), node.attributes)];
        }
        assert matches[..|matches|] == matches;
      } else {
        lines := lines + [node];
      }
    }
    assert nodes[..|nodes|] == nodes;

    result := [];
    var parent: seq<Op> := [];
    for i := 0 to |lines|
      invariant State(result, parent) == FeedAll(EMPTY, lines[..i])
    {
      var node := lines[i];
      FedUpTo(lines, i);
      if IsLine(node) {
        parent := parent + [Op(node.insert, None)];
        var n := |result| - 1;
        if |result| > 0 && IsCode(result[n].attributes) && IsCode(node.attributes) {
          result := result[n := Group(result[n].children + parent, result[n].attributes)];
        } else {
          result := result + [Group(parent, node.attributes)];
        }
        parent := [];
      } else {
        parent := parent + [node];
      }
    }
    assert lines[..|lines|] == lines;
    if |parent| > 0 {
      result := result + [Group(parent, None)];
    }

    while |result| > 0 && IsBlank(result[|result| - 1])
      invariant Trim(result) == Preprocessed(nodes)
    {
      result := result[..|result| - 1];
    }
  }

  lemma NothingFed()
    ensures Lines([]) == [] && FeedAll(EMPTY, []) == EMPTY
  {
  }

  lemma LinesUpTo(nodes: seq<Op>, i: nat)
    requires i < |nodes|
    ensures Lines(nodes[..i + 1]) == Lines(nodes[..i]) + LinesOf(nodes[i])
  {
    assert nodes[..i + 1][..i] == nodes[..i];
  }

  lemma TokensUpTo(tokens: seq<string>, attributes: Option<Attributes>)
    ensures WithAttributes(tokens[..0], attributes) == []
    ensures forall j :: 0 <= j < |tokens| ==>
      WithAttributes(tokens[..j + 1], attributes) == WithAttributes(tokens[..j], attributes) + [Op(Text(tokens[j]), attributes)]
  {
  }

  lemma FedUpTo(lines: seq<Op>, i: nat)
    requires i < |lines|
    ensures FeedAll(EMPTY, lines[..i + 1]) == Feed(FeedAll(EMPTY, lines[..i]), lines[i])
  {
    assert lines[..i + 1][..i] == lines[..i];
  }

  // ----- tokens

  /** Text without a newline. */
  predicate IsPlainText(s: string)
  {
    s != "" && '\n' !in s
  }

  /** Text with one newline, at its end. */
  predicate IsLineText(s: string)
  {
    s != "" && s[|s| - 1] == '\n' && '\n' !in s[..|s| - 1]
  }

  lemma {:induction false} TokenLengthCuts(s: string)
    requires s != ""
    ensures var n := TokenLength(s);
      && '\n' !in s[..n - 1]
      && (s[n - 1] != '\n' ==> n == |s|)
  {
    if !(s[0] == '\n' || |s| == 1) {
      var n := TokenLength(s);
      TokenLengthCuts(s[1..]);
      assert s[..n - 1] == [s[0]] + s[1..][..n - 2];
    }
  }

  /** A token is its own and only token. */
  lemma {:induction false} TokenIsItsOwn(s: string)
    requires IsPlainText(s) || IsLineText(s)
    ensures Tokens(s) == [s]
  {
    TokenLengthCuts(s);
    var n := TokenLength(s);
    forall i | 0 <= i < |s| - 1 ensures s[i] != '\n' {
      assert s[..|s| - 1][i] == s[i] && s[i] in s;
    }
    assert s[..n] == s && s[n..] == "";
  }

  lemma {:induction false} TokensAreTokens(s: string)
    ensures forall t :: t in Tokens(s) ==> IsPlainText(t) || IsLineText(t)
    decreases |s|
  {
    if s != "" {
      TokenLengthCuts(s);
      var n := TokenLength(s);
      var t := s[..n];
      assert t[..n - 1] == s[..n - 1] && t[n - 1] == s[n - 1];
      TokensAreTokens(s[n..]);
      if t[n - 1] != '\n' {
        assert t == t[..n - 1] + [t[n - 1]];
      }
    }
  }

  /** Cutting may start afresh after any newline. */
  lemma {:induction false} TokensSplitAfterNewline(s: string, t: string)
    requires s != "" && s[|s| - 1] == '\n'
    ensures Tokens(s + t) == Tokens(s) + Tokens(t)
    decreases |s|
  {
    TokenLengthOfPrefix(s, t);
    var n := TokenLength(s);
    assert (s + t)[..n] == s[..n] && (s + t)[n..] == s[n..] + t;
    if n < |s| {
      TokensSplitAfterNewline(s[n..], t);
    } else {
      assert s[n..] == "" && s[n..] + t == t;
    }
  }

  lemma {:induction false} TokenLengthOfPrefix(s: string, t: string)
    requires s != "" && s[|s| - 1] == '\n'
    ensures TokenLength(s + t) == TokenLength(s)
  {
    if s[0] != '\n' {
      assert (s + t)[1..] == s[1..] + t;
      TokenLengthOfPrefix(s[1..], t);
    }
  }

  // ----- splitting an operation after a newline changes nothing

  lemma {:induction false} LinesConcat(a: seq<Op>, b: seq<Op>)
    ensures Lines(a + b) == Lines(a) + Lines(b)
  {
    if b == [] {
      assert a + b == a;
    } else {
      hide LinesOf;
      var init, last := b[..|b| - 1], LinesOf(b[|b| - 1]);
      assert (a + b)[..|a + b| - 1] == a + init;
      LinesConcat(a, init);
      assert (Lines(a) + Lines(init)) + last == Lines(a) + (Lines(init) + last);
    }
  }

  lemma LinesOfOne(node: Op)
    ensures Lines([node]) == LinesOf(node)
  {
  }

  /**
   Where the editor happens to cut its operations does not matter: splitting a text
   operation right after a newline leaves the prepared document unchanged.
   */
  lemma SplitAfterNewlineIsInvisible(before: seq<Op>, s: string, t: string, attributes: Option<Attributes>, after: seq<Op>)
    requires s != "" && s[|s| - 1] == '\n'
    ensures Preprocessed(before + [Op(Text(s + t), attributes)] + after) ==
            Preprocessed(before + [Op(Text(s), attributes), Op(Text(t), attributes)] + after)
  {
    hide Preprocessed, Lines, Tokens;
    var whole, left, right := Op(Text(s + t), attributes), Op(Text(s), attributes), Op(Text(t), attributes);
    SplitLines(s, t, attributes);
    LinesConcat(before + [whole], after);
    LinesConcat(before, [whole]);
    LinesConcat(before + [left, right], after);
    LinesConcat(before, [left, right]);
    SameLinesSameResult(before + [whole] + after, before + [left, right] + after);
  }

  lemma SplitLines(s: string, t: string, attributes: Option<Attributes>)
    requires s != "" && s[|s| - 1] == '\n'
    ensures Lines([Op(Text(s + t), attributes)]) == Lines([Op(Text(s), attributes), Op(Text(t), attributes)])
  {
    hide Lines, Tokens;
    var left, right := Op(Text(s), attributes), Op(Text(t), attributes);
    TokensSplitAfterNewline(s, t);
    LinesConcat([left], [right]);
    assert [left] + [right] == [left, right];
    LinesOfOne(left);
    LinesOfOne(right);
    LinesOfOne(Op(Text(s + t), attributes));
  }

  lemma SameLinesSameResult(nodes: seq<Op>, nodes': seq<Op>)
    requires Lines(nodes) == Lines(nodes')
    ensures Preprocessed(nodes) == Preprocessed(nodes')
  {
  }

  // ----- the shape of the result

  /** A child that does not end a line: an embed, or text without a newline. */
  predicate IsPiece(op: Op)
  {
    op.insert.Embed? || IsPlainText(op.insert.text)
  }

  predicate IsBreak(op: Op)
  {
    op.insert.Text? && IsLineText(op.insert.text) && op.attributes == None
  }

  predicate IsComplete(g: Group)
  {
    g.children != [] && IsBreak(g.children[|g.children| - 1])
  }

  /**
   A complete group ends in a line break and, unless it is a code block, has no other.
   An incomplete group has no break at all and no line attributes.
   */
  predicate IsProper(g: Group)
  {
    && g.children != []
    && (forall i :: 0 <= i < |g.children| ==> IsPiece(g.children[i]) || IsBreak(g.children[i]))
    && (IsComplete(g) ==> IsCode(g.attributes) || forall i :: 0 <= i < |g.children| - 1 ==> IsPiece(g.children[i]))
    && (!IsComplete(g) ==> g.attributes == None && forall i :: 0 <= i < |g.children| ==> IsPiece(g.children[i]))
  }

  /** All groups are proper, all but perhaps the last complete, and no two neighbours are code blocks. */
  predicate IsCanonical(groups: seq<Group>)
  {
    && (forall i :: 0 <= i < |groups| ==> IsProper(groups[i]))
    && (forall i :: 0 <= i < |groups| - 1 ==> IsComplete(groups[i]))
    && (forall i :: 0 <= i < |groups| - 1 ==> !(IsCode(groups[i].attributes) && IsCode(groups[i + 1].attributes)))
  }

  predicate IsCanonicalState(st: State)
  {
    && IsCanonical(st.result)
    && (st.result != [] ==> IsComplete(st.result[|st.result| - 1]))
    && (forall i :: 0 <= i < |st.pending| ==> IsPiece(st.pending[i]))
  }

  predicate IsToken(op: Op)
  {
    op.insert.Embed? || IsPlainText(op.insert.text) || IsLineText(op.insert.text)
  }

  lemma LinesOfAreTokens(node: Op)
    ensures forall op :: op in LinesOf(node) ==> IsToken(op)
  {
    if node.insert.Text? {
      TokensAreTokens(node.insert.text);
      forall op | op in LinesOf(node) ensures IsToken(op) {
        var i :| 0 <= i < |LinesOf(node)| && LinesOf(node)[i] == op;
        assert Tokens(node.insert.text)[i] in Tokens(node.insert.text);
      }
    }
  }

  lemma {:induction false} LinesAreTokens(nodes: seq<Op>)
    ensures forall op :: op in Lines(nodes) ==> IsToken(op)
  {
    if nodes != [] {
      hide IsToken, LinesOf;
      LinesAreTokens(nodes[..|nodes| - 1]);
      LinesOfAreTokens(nodes[|nodes| - 1]);
    }
  }

  lemma TokenKinds(op: Op)
    requires IsToken(op)
    ensures if IsLine(op) then IsBreak(Op(op.insert, None)) else IsPiece(op)
  {
  }

  lemma FeedKeepsCanonical(st: State, node: Op)
    requires IsCanonicalState(st) && IsToken(node)
    ensures IsCanonicalState(Feed(st, node))
  {
    hide IsCode, IsPiece, IsBreak, IsToken;
    TokenKinds(node);
    if IsLine(node) {
      var st', br := Feed(st, node), Op(node.insert, None);
      var children, n := st.pending + [br], |st.result| - 1;
      assert children[|children| - 1] == br;
      var merge := st.result != [] && IsCode(st.result[n].attributes) && IsCode(node.attributes);
      if merge {
        var g := Group(st.result[n].children + children, st.result[n].attributes);
        assert g.children[|g.children| - 1] == br;
        assert IsProper(g) && IsComplete(g);
        assert st'.result == st.result[n := g];
      } else {
        assert IsProper(Group(children, node.attributes));
      }
    }
  }

  lemma {:induction false} FeedAllKeepsCanonical(st: State, lines: seq<Op>)
    requires IsCanonicalState(st) && forall op :: op in lines ==> IsToken(op)
    ensures IsCanonicalState(FeedAll(st, lines))
  {
    if lines != [] {
      hide IsCanonicalState, IsToken, Feed;
      assert lines[|lines| - 1] in lines;
      FeedAllKeepsCanonical(st, lines[..|lines| - 1]);
      FeedKeepsCanonical(FeedAll(st, lines[..|lines| - 1]), lines[|lines| - 1]);
    }
  }

  lemma FinishIsCanonical(st: State)
    requires IsCanonicalState(st)
    ensures IsCanonical(Finish(st))
  {
    hide IsCode, IsPiece;
    if st.pending != [] {
      var g := Group(st.pending, None);
      assert IsPiece(g.children[|g.children| - 1]);
      PieceIsNoBreak(g.children[|g.children| - 1]);
      assert IsProper(g);
      NoneIsNotCode();
    }
  }

  lemma PieceIsNoBreak(op: Op)
    requires IsPiece(op)
    ensures !IsBreak(op) && !IsLine(op)
  {
  }

  lemma NoneIsNotCode()
    ensures !IsCode(None)
  {
  }

  lemma {:induction false} TrimIsPrefix(groups: seq<Group>)
    ensures Trim(groups) <= groups
    ensures forall i :: |Trim(groups)| <= i < |groups| ==> IsBlank(groups[i])
    ensures Trim(groups) != [] ==> !IsBlank(Trim(groups)[|Trim(groups)| - 1])
  {
    if groups != [] && IsBlank(groups[|groups| - 1]) {
      TrimIsPrefix(groups[..|groups| - 1]);
    }
  }

  lemma GroupedIsCanonical(nodes: seq<Op>)
    ensures IsCanonical(Grouped(nodes))
  {
    hide IsCanonical, IsCanonicalState, Finish, FeedAll, Lines;
    LinesAreTokens(nodes);
    assert IsCanonicalState(EMPTY) by { EmptyIsCanonical(); }
    FeedAllKeepsCanonical(EMPTY, Lines(nodes));
    FinishIsCanonical(FeedAll(EMPTY, Lines(nodes)));
  }

  lemma EmptyIsCanonical()
    ensures IsCanonicalState(EMPTY)
  {
  }

  /**
   Every prepared document has the shape the renderer relies on: proper groups, only the
   last possibly without a line break, adjacent code blocks merged, no blank line at the end.
   */
  lemma ResultIsWellFormed(nodes: seq<Op>)
    ensures var result := Preprocessed(nodes);
      && IsCanonical(result)
      && (result != [] ==> !IsBlank(result[|result| - 1]))
  {
    hide IsProper, IsComplete, IsCode, IsBlank, Grouped;
    GroupedIsCanonical(nodes);
    TrimIsPrefix(Grouped(nodes));
  }

  // ----- nothing is lost

  /** The line attributes a group stands for go back to the breaks of its lines. */
  function FlatGroup(g: Group): seq<Op>
  {
    seq(|g.children|, i requires 0 <= i < |g.children| =>
      if IsLine(g.children[i]) then Op(g.children[i].insert, g.attributes) else g.children[i])
  }

  /** A document that says the same as the groups. */
  function Flat(groups: seq<Group>): seq<Op>
  {
    if groups == [] then [] else Flat(groups[..|groups| - 1]) + FlatGroup(groups[|groups| - 1])
  }

  /** Equal, or two code-block line breaks: a merged code block keeps the attributes of its first line. */
  predicate SameOp(a: Op, b: Op)
  {
    a == b || (IsLine(a) && a.insert == b.insert && IsCode(a.attributes) && IsCode(b.attributes))
  }

  predicate SameOps(a: seq<Op>, b: seq<Op>)
  {
    |a| == |b| && forall i :: 0 <= i < |a| ==> SameOp(a[i], b[i])
  }

  function FlatState(st: State): seq<Op>
  {
    Flat(st.result) + st.pending
  }

  lemma FlatSnoc(groups: seq<Group>, g: Group)
    ensures Flat(groups + [g]) == Flat(groups) + FlatGroup(g)
  {
  }

  lemma FlatGroupOfPieces(pieces: seq<Op>, br: Op, attributes: Option<Attributes>)
    requires forall i :: 0 <= i < |pieces| ==> IsPiece(pieces[i])
    requires IsLine(br)
    ensures FlatGroup(Group(pieces + [br], attributes)) == pieces + [Op(br.insert, attributes)]
  {
  }

  lemma FlatGroupConcat(a: seq<Op>, b: seq<Op>, attributes: Option<Attributes>)
    ensures FlatGroup(Group(a + b, attributes)) == FlatGroup(Group(a, attributes)) + FlatGroup(Group(b, attributes))
  {
  }

  function LastBreak(ops: seq<Op>): Option<Op>
  {
    if ops == [] then None
    else if IsLine(ops[|ops| - 1]) then Some(ops[|ops| - 1])
    else LastBreak(ops[..|ops| - 1])
  }

  /** A code-block line break that follows another one takes over its attributes. */
  function KeptOp(earlier: seq<Op>, node: Op): Op
  {
    var br := LastBreak(earlier);
    if IsLine(node) && IsCode(node.attributes) && br.Some? && IsCode(br.value.attributes) then
      Op(node.insert, br.value.attributes)
    else node
  }

  /** The lines as grouping keeps them: a run of code-block lines has the attributes of its first. */
  function Kept(lines: seq<Op>): (kept: seq<Op>)
    ensures |kept| == |lines|
  {
    if lines == [] then [] else
    var earlier := Kept(lines[..|lines| - 1]);
    earlier + [KeptOp(earlier, lines[|lines| - 1])]
  }

  /** The last group of a state has the attributes of the last line break. */
  predicate RecordsLastBreak(st: State, ops: seq<Op>)
  {
    var br := LastBreak(ops);
    && (st.result == [] <==> br == None)
    && (st.result != [] && br.Some? ==> st.result[|st.result| - 1].attributes == br.value.attributes)
  }

  lemma FeedMergedLine(init: seq<Group>, last: Group, pending: seq<Op>, node: Op)
    requires forall i :: 0 <= i < |pending| ==> IsPiece(pending[i])
    requires IsLine(node) && IsCode(last.attributes) && IsCode(node.attributes)
    ensures var st := State(init + [last], pending);
      FlatState(Feed(st, node)) == FlatState(st) + [Op(node.insert, last.attributes)]
  {
    hide IsCode, IsPiece, IsLine, FlatGroup, Flat;
    var br := Op(node.insert, None);
    var merged := Group(last.children + (pending + [br]), last.attributes);
    BreakOfLine(node);
    assert Feed(State(init + [last], pending), node) == State(init + [merged], []) by {
      assert (init + [last])[|init| := merged] == init + [merged];
    }
    FlatSnoc(init, last);
    FlatSnoc(init, merged);
    FlatGroupConcat(last.children, pending + [br], last.attributes);
    FlatGroupOfPieces(pending, br, last.attributes);
  }

  lemma FeedNewLine(st: State, node: Op)
    requires forall i :: 0 <= i < |st.pending| ==> IsPiece(st.pending[i])
    requires IsLine(node)
    requires st.result == [] || !IsCode(st.result[|st.result| - 1].attributes) || !IsCode(node.attributes)
    ensures FlatState(Feed(st, node)) == FlatState(st) + [node]
  {
    hide IsCode, IsPiece, IsLine, FlatGroup, Flat;
    var br := Op(node.insert, None);
    BreakOfLine(node);
    FlatSnoc(st.result, Group(st.pending + [br], node.attributes));
    FlatGroupOfPieces(st.pending, br, node.attributes);
  }

  lemma BreakOfLine(op: Op)
    requires IsLine(op)
    ensures IsLine(Op(op.insert, None))
  {
  }

  /** Feeding a line appends just that line to what the state stands for. */
  lemma FeedAppends(st: State, node: Op)
    requires IsCanonicalState(st) && RecordsLastBreak(st, FlatState(st))
    ensures FlatState(Feed(st, node)) == FlatState(st) + [KeptOp(FlatState(st), node)]
  {
    hide IsCode, IsPiece, IsCanonical, IsLine, LastBreak, Flat;
    if IsLine(node) {
      hide Feed, FlatState;
      var n := |st.result| - 1;
      if st.result != [] && IsCode(st.result[n].attributes) && IsCode(node.attributes) {
        assert st == State(st.result[..n] + [st.result[n]], st.pending);
        FeedMergedLine(st.result[..n], st.result[n], st.pending, node);
      } else {
        FeedNewLine(st, node);
      }
    }
  }

  lemma FeedRecords(st: State, ops: seq<Op>, node: Op)
    requires RecordsLastBreak(st, ops)
    ensures RecordsLastBreak(Feed(st, node), ops + [KeptOp(ops, node)])
  {
    hide IsCode;
    assert (ops + [KeptOp(ops, node)])[..|ops|] == ops;
  }

  /** A state stands for the lines fed to it, as grouping keeps them. */
  lemma {:induction false} FeedAllKeeps(lines: seq<Op>)
    requires forall op :: op in lines ==> IsToken(op)
    ensures FlatState(FeedAll(EMPTY, lines)) == Kept(lines)
    ensures RecordsLastBreak(FeedAll(EMPTY, lines), Kept(lines))
  {
    hide IsToken, Feed, IsCanonicalState, FlatState, KeptOp;
    if lines == [] {
      EmptyIsFlat();
    } else {
      var init, node := lines[..|lines| - 1], lines[|lines| - 1];
      assert node in lines;
      FeedAllKeeps(init);
      EmptyIsCanonical();
      FeedAllKeepsCanonical(EMPTY, init);
      FeedAppends(FeedAll(EMPTY, init), node);
      FeedRecords(FeedAll(EMPTY, init), Kept(init), node);
    }
  }

  lemma {:induction false} KeptIsSame(lines: seq<Op>)
    ensures SameOps(Kept(lines), lines)
    ensures LastBreak(Kept(lines)).Some? <==> LastBreak(lines).Some?
    ensures LastBreak(lines).Some? ==> SameOp(LastBreak(Kept(lines)).value, LastBreak(lines).value)
  {
    hide IsCode;
    if lines != [] {
      KeptIsSame(lines[..|lines| - 1]);
      assert Kept(lines)[..|lines| - 1] == Kept(lines[..|lines| - 1]);
    }
  }

  /** Two code-block line breaks with no line break between them. */
  predicate AreSuccessiveCodeLines(lines: seq<Op>, i: nat, j: nat)
    requires i < j < |lines|
  {
    && IsLine(lines[i]) && IsLine(lines[j]) && IsCode(lines[i].attributes) && IsCode(lines[j].attributes)
    && forall k :: i < k < j ==> !IsLine(lines[k])
  }

  predicate CodeLinesAgree(lines: seq<Op>)
  {
    forall i: nat, j: nat :: i < j < |lines| && AreSuccessiveCodeLines(lines, i, j) ==> lines[i].attributes == lines[j].attributes
  }

  lemma {:induction false} LastBreakAt(lines: seq<Op>) returns (i: int)
    ensures -1 <= i < |lines|
    ensures i == -1 <==> LastBreak(lines) == None
    ensures i >= 0 ==> IsLine(lines[i]) && LastBreak(lines) == Some(lines[i])
    ensures forall k :: i < k < |lines| ==> !IsLine(lines[k])
  {
    if lines == [] {
      i := -1;
    } else if IsLine(lines[|lines| - 1]) {
      i := |lines| - 1;
    } else {
      i := LastBreakAt(lines[..|lines| - 1]);
    }
  }

  /** One more line agrees exactly when it keeps its attributes. */
  lemma AgreeSnoc(lines: seq<Op>, node: Op)
    ensures CodeLinesAgree(lines + [node]) <==> CodeLinesAgree(lines) && KeptOp(lines, node) == node
  {
    hide IsLine, IsCode, LastBreak;
    var all, n := lines + [node], |lines|;
    var last := LastBreakAt(lines);
    assert forall k :: 0 <= k < n ==> all[k] == lines[k];
    if CodeLinesAgree(all) {
      forall i: nat, j: nat | i < j < n && AreSuccessiveCodeLines(lines, i, j) ensures lines[i].attributes == lines[j].attributes {
        assert AreSuccessiveCodeLines(all, i, j);
      }
      assert last >= 0 && IsLine(node) && IsCode(node.attributes) && IsCode(lines[last].attributes) ==>
        AreSuccessiveCodeLines(all, last, n);
    }
    if CodeLinesAgree(lines) && KeptOp(lines, node) == node {
      forall i: nat, j: nat | i < j <= n && AreSuccessiveCodeLines(all, i, j) ensures all[i].attributes == all[j].attributes {
        if j == n {
          assert last >= 0 && IsLine(all[last]);
          assert i == last;
        } else {
          assert AreSuccessiveCodeLines(lines, i, j);
        }
      }
    }
  }

  /** Grouping keeps all attributes exactly when successive code-block lines agree on theirs. */
  lemma {:induction false} KeptIff(lines: seq<Op>)
    ensures Kept(lines) == lines <==> CodeLinesAgree(lines)
  {
    if lines != [] {
      hide CodeLinesAgree, KeptOp;
      var n := |lines| - 1;
      assert lines == lines[..n] + [lines[n]];
      KeptIff(lines[..n]);
      AgreeSnoc(lines[..n], lines[n]);
      assert Kept(lines)[..n] == Kept(lines[..n]) && Kept(lines)[n] == KeptOp(Kept(lines[..n]), lines[n]);
    }
  }

  lemma EmptyIsFlat()
    ensures FlatState(EMPTY) == []
  {
  }

  lemma FlatGroupOfOnlyPieces(pieces: seq<Op>)
    requires forall i :: 0 <= i < |pieces| ==> IsPiece(pieces[i])
    ensures FlatGroup(Group(pieces, None)) == pieces
  {
    hide IsPiece, IsLine;
    forall i | 0 <= i < |pieces| ensures !IsLine(pieces[i]) {
      PieceIsNoBreak(pieces[i]);
    }
  }

  lemma FinishIsFlat(st: State)
    requires IsCanonicalState(st)
    ensures Flat(Finish(st)) == FlatState(st)
  {
    hide IsCanonical, IsPiece, Flat, FlatGroup, IsComplete;
    if st.pending != [] {
      FlatSnoc(st.result, Group(st.pending, None));
      FlatGroupOfOnlyPieces(st.pending);
    }
  }

  /** Blank lines, one newline each. */
  predicate AllBlank(ops: seq<Op>)
  {
    forall i :: 0 <= i < |ops| ==> ops[i].insert == Text("\n")
  }

  lemma {:induction false} TrimDropsBlanks(groups: seq<Group>) returns (dropped: seq<Op>)
    ensures Flat(groups) == Flat(Trim(groups)) + dropped
    ensures AllBlank(dropped) && |dropped| == |groups| - |Trim(groups)|
  {
    if groups != [] && IsBlank(groups[|groups| - 1]) {
      dropped := TrimDropsBlanks(groups[..|groups| - 1]);
      dropped := dropped + FlatGroup(groups[|groups| - 1]);
    } else {
      dropped := [];
    }
  }

  /**
   Nothing is lost or reordered: the groups, read back as a document and followed by one
   blank line for every trimmed group, are exactly the lines of the input, every text piece
   and embed with its own attributes and every line break with its own attributes, except
   that the lines of a merged code block carry those of its first line. So the lines come
   back unchanged exactly when successive code-block lines have the same attributes.
   */
  lemma NothingIsLost(nodes: seq<Op>) returns (dropped: seq<Op>)
    ensures Flat(Preprocessed(nodes)) + dropped == Kept(Lines(nodes))
    ensures AllBlank(dropped) && |dropped| == |Grouped(nodes)| - |Preprocessed(nodes)|
    ensures SameOps(Flat(Preprocessed(nodes)) + dropped, Lines(nodes))
    ensures Flat(Preprocessed(nodes)) + dropped == Lines(nodes) <==> CodeLinesAgree(Lines(nodes))
  {
    hide SameOps, IsCanonicalState, AllBlank, Finish, FeedAll, Lines, Flat, Trim, CodeLinesAgree, Kept;
    LinesAreTokens(nodes);
    EmptyIsCanonical();
    FeedAllKeepsCanonical(EMPTY, Lines(nodes));
    FeedAllKeeps(Lines(nodes));
    KeptIsSame(Lines(nodes));
    KeptIff(Lines(nodes));
    FinishIsFlat(FeedAll(EMPTY, Lines(nodes)));
    dropped := TrimDropsBlanks(Grouped(nodes));
  }

  lemma TwoCodeLines(first: Op, second: Op)
    requires IsToken(first) && IsToken(second) && IsLine(first) && IsLine(second)
    requires IsCode(first.attributes) && IsCode(second.attributes)
    ensures Lines([first, second]) == [first, second]
    ensures Preprocessed([first, second]) == [Group([Op(first.insert, None), Op(second.insert, None)], first.attributes)]
    ensures Flat(Preprocessed([first, second])) == [first, Op(second.insert, first.attributes)]
  {
    hide IsToken, IsLine, IsCode, LinesOf, Lines, Flat;
    var nodes, a, b := [first, second], Op(first.insert, None), Op(second.insert, None);
    LinesOfTokens(nodes);
    assert nodes[..1] == [first] && [first][..0] == [];
    assert FeedAll(EMPTY, [first]) == State([Group([a], first.attributes)], []) by {
      assert EMPTY.pending + [a] == [a];
    }
    assert FeedAll(EMPTY, nodes) == State([Group([a, b], first.attributes)], []) by {
      assert [a] + ([] + [b]) == [a, b];
    }
    FlatOfOne(Group([a, b], first.attributes));
    BreakOfLine(first);
    BreakOfLine(second);
  }

  lemma FlatOfOne(g: Group)
    ensures Flat([g]) == FlatGroup(g)
  {
    FlatSnoc([], g);
  }

  function CodeLine(text: string, language: Json): Op
  {
    Op(Text(text), Some(map["code-block" := language]))
  }

  lemma CodeLineIsLine(text: string, language: Json)
    requires IsLineText(text) && language.Truthy()
    ensures var op := CodeLine(text, language); IsToken(op) && IsLine(op) && IsCode(op.attributes)
  {
  }

  /** Two code-block lines of different languages: the second comes back with the first one's. */
  lemma MergedBlockLosesAttributes()
    ensures var nodes := [CodeLine("a\n", JBool(true)), CodeLine("b\n", JText("python"))];
      && Lines(nodes) == nodes
      && Flat(Preprocessed(nodes)) == [CodeLine("a\n", JBool(true)), CodeLine("b\n", JBool(true))]
      && Flat(Preprocessed(nodes)) != Lines(nodes)
  {
    hide Flat, Preprocessed, Lines, IsToken, IsLine, IsCode;
    var first, second := CodeLine("a\n", JBool(true)), CodeLine("b\n", JText("python"));
    CodeLineIsLine("a\n", JBool(true));
    CodeLineIsLine("b\n", JText("python"));
    assert second.attributes.value["code-block"] == JText("python");
    TwoCodeLines(first, second);
  }

  // ----- content, character by character

  datatype Atom = Character(c: char) | Object(fields: map<string, Json>)

  function Atoms(s: string): seq<Atom>
  {
    seq(|s|, i requires 0 <= i < |s| => Character(s[i]))
  }

  function AtomsOf(op: Op): seq<Atom>
  {
    match op.insert
    case Text(s) => Atoms(s)
    case Embed(fields) => [Object(fields)]
  }

  /** All characters and embeds of a document, in order. */
  function Content(ops: seq<Op>): seq<Atom>
  {
    if ops == [] then [] else Content(ops[..|ops| - 1]) + AtomsOf(ops[|ops| - 1])
  }

  lemma {:induction false} ContentConcat(a: seq<Op>, b: seq<Op>)
    ensures Content(a + b) == Content(a) + Content(b)
  {
    if b == [] {
      assert a + b == a;
    } else {
      hide AtomsOf;
      var init, last := b[..|b| - 1], AtomsOf(b[|b| - 1]);
      assert (a + b)[..|a + b| - 1] == a + init;
      ContentConcat(a, init);
      assert (Content(a) + Content(init)) + last == Content(a) + (Content(init) + last);
    }
  }

  lemma TokensUnfold(s: string, attributes: Option<Attributes>)
    requires s != ""
    ensures var n := TokenLength(s);
      && WithAttributes(Tokens(s), attributes) ==
         [Op(Text(s[..n]), attributes)] + WithAttributes(Tokens(s[n..]), attributes)
  {
  }

  lemma AtomsSplit(s: string, n: nat)
    requires n <= |s|
    ensures Atoms(s) == Atoms(s[..n]) + Atoms(s[n..])
  {
  }

  lemma {:induction false} TokensContent(s: string, attributes: Option<Attributes>)
    ensures Content(WithAttributes(Tokens(s), attributes)) == Atoms(s)
    decreases |s|
  {
    hide Content, WithAttributes, Atoms, Tokens;
    if s == "" {
      NoTokensNoContent(attributes);
    } else {
      var n := TokenLength(s);
      var head := Op(Text(s[..n]), attributes);
      TokensUnfold(s, attributes);
      AtomsSplit(s, n);
      TokensContent(s[n..], attributes);
      ContentConcat([head], WithAttributes(Tokens(s[n..]), attributes));
      ContentOfOne(head);
    }
  }

  lemma NoTokensNoContent(attributes: Option<Attributes>)
    ensures Content(WithAttributes(Tokens(""), attributes)) == Atoms("")
  {
  }

  lemma ContentOfOne(op: Op)
    ensures Content([op]) == AtomsOf(op)
  {
  }

  lemma {:induction false} LinesContent(nodes: seq<Op>)
    ensures Content(Lines(nodes)) == Content(nodes)
  {
    if nodes != [] {
      hide LinesOf;
      var init, node := nodes[..|nodes| - 1], nodes[|nodes| - 1];
      LinesContent(init);
      ContentConcat(Lines(init), LinesOf(node));
      LinesOfContent(node);
    }
  }

  lemma LinesOfContent(node: Op)
    ensures Content(LinesOf(node)) == AtomsOf(node)
  {
    if node.insert.Text? {
      TokensContent(node.insert.text, node.attributes);
    } else {
      ContentOfOne(node);
    }
  }

  lemma {:induction false} SameOpsSameContent(a: seq<Op>, b: seq<Op>)
    requires SameOps(a, b)
    ensures Content(a) == Content(b)
  {
    if a != [] {
      SameOpsSameContent(a[..|a| - 1], b[..|b| - 1]);
    }
  }

  function Newlines(k: nat): seq<Atom>
  {
    seq(k, i => Character('\n'))
  }

  lemma {:induction false} BlankContent(ops: seq<Op>)
    requires AllBlank(ops)
    ensures Content(ops) == Newlines(|ops|)
  {
    if ops != [] {
      BlankContent(ops[..|ops| - 1]);
    }
  }

  lemma {:induction false} FlatContent(groups: seq<Group>)
    ensures Content(Flat(groups)) == ContentOfGroups(groups)
  {
    if groups != [] {
      hide FlatGroup;
      var init, g := groups[..|groups| - 1], groups[|groups| - 1];
      FlatContent(init);
      ContentConcat(Flat(init), FlatGroup(g));
      FlatGroupContent(g.children, g.attributes);
    }
  }

  function ContentOfGroups(groups: seq<Group>): seq<Atom>
  {
    if groups == [] then []
    else ContentOfGroups(groups[..|groups| - 1]) + Content(groups[|groups| - 1].children)
  }

  lemma {:induction false} FlatGroupContent(children: seq<Op>, attributes: Option<Attributes>)
    ensures Content(FlatGroup(Group(children, attributes))) == Content(children)
  {
    if children != [] {
      var init := children[..|children| - 1];
      FlatGroupContent(init, attributes);
      assert FlatGroup(Group(children, attributes))[..|children| - 1] == FlatGroup(Group(init, attributes));
    }
  }

  /**
   The children of the result, read in order, followed by one newline for every trimmed
   group, spell exactly the input: same characters, same embeds, same order.
   */
  lemma ContentIsPreserved(nodes: seq<Op>)
    ensures Content(nodes) ==
            ContentOfGroups(Preprocessed(nodes)) + Newlines(|Grouped(nodes)| - |Preprocessed(nodes)|)
  {
    hide Preprocessed, Grouped, SameOps, AllBlank, Content, Flat, Lines, ContentOfGroups;
    var dropped := NothingIsLost(nodes);
    SameOpsSameContent(Flat(Preprocessed(nodes)) + dropped, Lines(nodes));
    LinesContent(nodes);
    ContentConcat(Flat(Preprocessed(nodes)), dropped);
    BlankContent(dropped);
    FlatContent(Preprocessed(nodes));
  }

  // ----- what is trimmed, by content

  lemma {:induction false} ContentLength(ops: seq<Op>, i: nat)
    requires i < |ops| && AtomsOf(ops[i]) != []
    ensures |Content(ops)| >= 1
    ensures forall j :: 0 <= j < |ops| && j != i && AtomsOf(ops[j]) != [] ==> |Content(ops)| >= 2
  {
    hide AtomsOf;
    var n := |ops| - 1;
    if i < n {
      ContentLength(ops[..n], i);
    } else if j :| 0 <= j < n && AtomsOf(ops[j]) != [] {
      ContentLength(ops[..n], j);
    }
  }

  /** A proper group whose content is one newline is one bare line break. */
  lemma NewlineGroupIsBlank(g: Group)
    requires IsProper(g) && Content(g.children) == [Character('\n')]
    ensures IsBlank(g)
  {
    var n := |g.children| - 1;
    forall i | 0 <= i <= n ensures AtomsOf(g.children[i]) != [] {
      assert IsPiece(g.children[i]) || IsBreak(g.children[i]);
    }
    ContentLength(g.children, 0);
    assert n == 0;
    assert g.children == [g.children[0]];
    ContentOfOne(g.children[0]);
    assert AtomsOf(g.children[0]) == [Character('\n')];
    var text := g.children[0].insert.text;
    assert |Atoms(text)| == |text|;
    assert text == "\n";
  }

  lemma BlankGroupIsNewline(g: Group)
    requires IsBlank(g)
    ensures Content(g.children) == [Character('\n')]
  {
    assert g.children == [g.children[0]];
    ContentOfOne(g.children[0]);
  }

  /**
   Trimming in terms of content alone: the result is the grouped document without the groups
   at its end that consist of a single newline, whatever their attributes. All of those are
   gone, and nothing else.
   */
  lemma TrimmedExactly(nodes: seq<Op>)
    ensures var result, groups, newline := Preprocessed(nodes), Grouped(nodes), [Character('\n')];
      && result <= groups
      && (forall i :: |result| <= i < |groups| ==> Content(groups[i].children) == newline)
      && (result != [] ==> Content(result[|result| - 1].children) != newline)
  {
    hide Grouped, IsProper, IsBlank, Content;
    var result, groups := Preprocessed(nodes), Grouped(nodes);
    GroupedIsCanonical(nodes);
    TrimIsPrefix(groups);
    forall i | |result| <= i < |groups| ensures Content(groups[i].children) == [Character('\n')] {
      BlankGroupIsNewline(groups[i]);
    }
    if result != [] && Content(result[|result| - 1].children) == [Character('\n')] {
      NewlineGroupIsBlank(result[|result| - 1]);
    }
  }

  // ----- where group attributes come from

  /** Attributes that do not make a code block, in terms of the stored value. */
  predicate HasNoCode(attributes: Option<Attributes>)
  {
    attributes.None? || "code-block" !in attributes.value
    || attributes.value["code-block"] in {JBool(false), JText(""), JNumber(0)}
  }

  lemma HasNoCodeIsNotCode(attributes: Option<Attributes>)
    ensures HasNoCode(attributes) <==> !IsCode(attributes)
  {
  }

  predicate NoCode(ops: seq<Op>)
  {
    forall op :: op in ops ==> HasNoCode(op.attributes)
  }

  predicate NoCodeGroups(st: State)
  {
    forall g :: g in st.result ==> HasNoCode(g.attributes)
  }

  /** The number of line breaks. */
  function Breaks(ops: seq<Op>): nat
  {
    if ops == [] then 0 else Breaks(ops[..|ops| - 1]) + if IsLine(ops[|ops| - 1]) then 1 else 0
  }

  lemma {:induction false} FeedWithoutCode(lines: seq<Op>)
    requires NoCode(lines)
    ensures NoCodeGroups(FeedAll(EMPTY, lines)) && |FeedAll(EMPTY, lines).result| == Breaks(lines)
    ensures FeedAll(EMPTY, lines).pending == [] <==> lines == [] || IsLine(lines[|lines| - 1])
  {
    if lines != [] {
      hide IsLine, HasNoCode, IsCode;
      var n := |lines| - 1;
      var init, node := lines[..n], lines[n];
      assert node in lines && forall op :: op in init ==> op in lines;
      FeedWithoutCode(init);
      HasNoCodeIsNotCode(node.attributes);
      var st := FeedAll(EMPTY, init);
      forall g | g in Feed(st, node).result ensures HasNoCode(g.attributes) {
        assert g in st.result || g.attributes == node.attributes;
      }
    }
  }

  lemma {:induction false} LinesWithoutCode(nodes: seq<Op>)
    requires NoCode(nodes)
    ensures NoCode(Lines(nodes))
  {
    if nodes != [] {
      hide HasNoCode, Tokens;
      var n := |nodes| - 1;
      assert nodes[n] in nodes && forall op :: op in nodes[..n] ==> op in nodes;
      LinesWithoutCode(nodes[..n]);
      forall op | op in LinesOf(nodes[n]) ensures op.attributes == nodes[n].attributes {
      }
    }
  }

  /**
   Only code blocks are merged: in a document without them, lists and headings included,
   every line is a group of its own, and all attributes survive.
   */
  lemma OnlyCodeIsMerged(nodes: seq<Op>)
    requires NoCode(nodes)
    ensures var lines := Lines(nodes);
      |Grouped(nodes)| == Breaks(lines) + if lines == [] || IsLine(lines[|lines| - 1]) then 0 else 1
    ensures CodeLinesAgree(Lines(nodes))
  {
    hide HasNoCode, IsCode, Lines, IsLine;
    LinesWithoutCode(nodes);
    FeedWithoutCode(Lines(nodes));
    forall i | 0 <= i < |Lines(nodes)| ensures !IsCode(Lines(nodes)[i].attributes) {
      HasNoCodeIsNotCode(Lines(nodes)[i].attributes);
    }
  }

  // ----- preparing a prepared document changes nothing

  lemma {:induction false} FeedAllConcat(st: State, a: seq<Op>, b: seq<Op>)
    ensures FeedAll(st, a + b) == FeedAll(FeedAll(st, a), b)
  {
    if b == [] {
      assert a + b == a;
    } else {
      hide Feed;
      assert (a + b)[..|a + b| - 1] == a + b[..|b| - 1];
      FeedAllConcat(st, a, b[..|b| - 1]);
    }
  }

  /** The number of children up to and including the last break among the first `k`. */
  function UpToBreak(children: seq<Op>, k: nat): (j: nat)
    requires k <= |children|
    ensures j <= k
    ensures j > 0 ==> IsBreak(children[j - 1])
    ensures forall i :: j <= i < k ==> !IsBreak(children[i])
  {
    if k == 0 || IsBreak(children[k - 1]) then k else UpToBreak(children, k - 1)
  }

  /** What feeding the first `k` children of a complete group builds on top of `before`. */
  function Partly(before: seq<Group>, g: Group, k: nat): State
    requires k <= |g.children|
  {
    var j := UpToBreak(g.children, k);
    State(if j == 0 then before else before + [Group(g.children[..j], g.attributes)], g.children[j..k])
  }

  predicate MayFollow(before: seq<Group>, g: Group)
  {
    before != [] ==> !(IsCode(before[|before| - 1].attributes) && IsCode(g.attributes))
  }

  lemma FeedChild(before: seq<Group>, g: Group, k: nat)
    requires IsProper(g) && IsComplete(g) && MayFollow(before, g) && k < |g.children|
    ensures Feed(Partly(before, g, k), FlatGroup(g)[k]) == Partly(before, g, k + 1)
  {
    hide IsCode, IsPiece, IsPlainText, IsLineText;
    var st, c, node := Partly(before, g, k), g.children[k], FlatGroup(g)[k];
    var j := UpToBreak(g.children, k);
    if IsBreak(c) {
      BreakIsLine(c);
      assert Op(node.insert, None) == c && node.attributes == g.attributes;
      assert g.children[j..k] + [c] == g.children[j..k + 1];
      assert UpToBreak(g.children, k + 1) == k + 1;
      assert g.children[k + 1..k + 1] == [];
      if j > 0 {
        PieceIsNoBreakAt(g.children, j - 1);
        assert IsCode(g.attributes);
        assert g.children[..j] + g.children[j..k + 1] == g.children[..k + 1];
        assert st.result == before + [Group(g.children[..j], g.attributes)];
        assert st.result[|before| := Group(g.children[..k + 1], g.attributes)] ==
               before + [Group(g.children[..k + 1], g.attributes)];
      } else {
        assert g.children[0..k + 1] == g.children[..k + 1];
      }
    } else {
      PieceIsNoBreak(c);
      assert node == c;
      assert g.children[j..k] + [c] == g.children[j..k + 1];
    }
  }

  lemma BreakIsLine(op: Op)
    requires IsBreak(op)
    ensures IsLine(op) && Op(op.insert, None) == op
  {
  }

  lemma PieceIsNoBreakAt(children: seq<Op>, i: nat)
    requires i < |children| && IsBreak(children[i])
    ensures !IsPiece(children[i])
  {
  }

  lemma {:induction false} FeedChildren(before: seq<Group>, g: Group, k: nat)
    requires IsProper(g) && IsComplete(g) && MayFollow(before, g) && k <= |g.children|
    ensures FeedAll(State(before, []), FlatGroup(g)[..k]) == Partly(before, g, k)
  {
    hide Feed, FlatGroup, Partly, IsProper, MayFollow;
    if k == 0 {
      PartlyNothing(before, g);
    } else {
      FeedChildren(before, g, k - 1);
      FeedChild(before, g, k - 1);
      FlatGroupLength(g);
      assert FlatGroup(g)[..k][..k - 1] == FlatGroup(g)[..k - 1];
    }
  }

  lemma PartlyNothing(before: seq<Group>, g: Group)
    ensures Partly(before, g, 0) == State(before, [])
  {
  }

  lemma FlatGroupLength(g: Group)
    ensures |FlatGroup(g)| == |g.children|
  {
  }

  lemma FeedGroup(before: seq<Group>, g: Group)
    requires IsProper(g) && IsComplete(g) && MayFollow(before, g)
    ensures FeedAll(State(before, []), FlatGroup(g)) == State(before + [g], [])
  {
    hide IsProper, MayFollow, IsBreak, FeedAll;
    var n := |g.children|;
    FeedChildren(before, g, n);
    assert FlatGroup(g)[..n] == FlatGroup(g);
    assert g.children[..n] == g.children;
  }

  lemma {:induction false} FeedPieces(st: State, pieces: seq<Op>)
    requires forall i :: 0 <= i < |pieces| ==> IsPiece(pieces[i])
    ensures FeedAll(st, pieces) == State(st.result, st.pending + pieces)
  {
    hide IsPiece, IsLine;
    if pieces != [] {
      var n := |pieces| - 1;
      FeedPieces(st, pieces[..n]);
      PieceIsNoBreak(pieces[n]);
      assert pieces == pieces[..n] + [pieces[n]];
    }
  }

  lemma {:induction false} FeedFlat(groups: seq<Group>)
    requires IsCanonical(groups)
    ensures Finish(FeedAll(EMPTY, Flat(groups))) == groups
    ensures groups != [] && IsComplete(groups[|groups| - 1]) ==> FeedAll(EMPTY, Flat(groups)) == State(groups, [])
  {
    if groups != [] {
      hide IsProper, IsComplete, IsCode, FlatGroup, Feed;
      var init, g := groups[..|groups| - 1], groups[|groups| - 1];
      assert groups == init + [g];
      FeedFlat(init);
      assert FeedAll(EMPTY, Flat(init)) == State(init, []);
      FeedAllConcat(EMPTY, Flat(init), FlatGroup(g));
      if IsComplete(g) {
        FeedGroup(init, g);
      } else {
        FeedIncomplete(init, g);
      }
    }
  }

  lemma FeedIncomplete(before: seq<Group>, g: Group)
    requires IsProper(g) && !IsComplete(g)
    ensures FeedAll(State(before, []), FlatGroup(g)) == State(before, g.children)
    ensures g == Group(g.children, None) && g.children != []
  {
    hide IsPiece, IsBreak, IsLine, FeedAll;
    forall i | 0 <= i < |g.children| ensures !IsLine(g.children[i]) {
      PieceIsNoBreak(g.children[i]);
    }
    assert FlatGroup(g) == g.children;
    FeedPieces(State(before, []), g.children);
    assert [] + g.children == g.children;
  }

  lemma LinesOfToken(op: Op)
    requires IsToken(op)
    ensures LinesOf(op) == [op]
  {
    if op.insert.Text? {
      TokenIsItsOwn(op.insert.text);
    }
  }

  lemma {:induction false} LinesOfTokens(ops: seq<Op>)
    requires forall i :: 0 <= i < |ops| ==> IsToken(ops[i])
    ensures Lines(ops) == ops
  {
    hide *;
    if ops == [] {
      NothingFed();
    } else {
      var n := |ops| - 1;
      assert ops[..n + 1] == ops == ops[..n] + [ops[n]];
      LinesOfTokens(ops[..n]);
      LinesOfToken(ops[n]);
      LinesUpTo(ops, n);
    }
  }

  lemma {:induction false} FlatIsTokens(groups: seq<Group>)
    requires IsCanonical(groups)
    ensures forall i :: 0 <= i < |Flat(groups)| ==> IsToken(Flat(groups)[i])
  {
    if groups != [] {
      hide IsToken, IsComplete, IsCode, FlatGroup, IsProper;
      FlatIsTokens(groups[..|groups| - 1]);
      FlatGroupIsTokens(groups[|groups| - 1]);
    }
  }

  lemma FlatGroupIsTokens(g: Group)
    requires IsProper(g)
    ensures forall i :: 0 <= i < |FlatGroup(g)| ==> IsToken(FlatGroup(g)[i])
  {
  }

  lemma TrimmedAlready(groups: seq<Group>)
    requires groups != [] ==> !IsBlank(groups[|groups| - 1])
    ensures Trim(groups) == groups
  {
  }

  /**
   Preparation is idempotent: reading a prepared document back as a Quill document and
   preparing it again gives the same groups.
   */
  lemma PreparationIsStable(nodes: seq<Op>)
    ensures Preprocessed(Flat(Preprocessed(nodes))) == Preprocessed(nodes)
  {
    hide IsCanonical, IsBlank, Lines, FeedAll, Finish, Flat;
    var result := Preprocessed(nodes);
    ResultIsWellFormed(nodes);
    hide Preprocessed, Trim;
    FlatIsTokens(result);
    LinesOfTokens(Flat(result));
    FeedFlat(result);
    TrimmedAlready(result);
    PreprocessedUnfold(Flat(result));
  }

  lemma PreprocessedUnfold(nodes: seq<Op>)
    ensures Preprocessed(nodes) == Trim(Finish(FeedAll(EMPTY, Lines(nodes))))
  {
  }
}
