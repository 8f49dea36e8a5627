/** Plain text for a Quill document: one paragraph for every group that has something to say. */
module QuillText {
  import opened Wrappers
  import opened QuillDelta

  /** White space as the language's own trimming functions see it. */
  predicate IsSpace(c: char)
  {
    c in " \t\n\U{000b}\U{000c}\r\U{00a0}\U{1680}\U{2028}\U{2029}\U{202f}\U{205f}\U{3000}\U{feff}" || '\U{2000}' <= c <= '\U{200a}'
  }

  /** Nothing would be left of the text after trimming. */
  predicate IsBlankText(s: string)
  {
    forall i :: 0 <= i < |s| ==> IsSpace(s[i])
  }

  function TrimRight(s: string): string
  {
    if s != "" && IsSpace(s[|s| - 1]) then TrimRight(s[..|s| - 1]) else s
  }

  predicate Has(fields: map<string, Json>, name: string)
  {
    name in fields && fields[name].Truthy()
  }

  function ChildText(child: Op): string
  {
    match child.insert
    case Text(s) => TrimRight(s)
    case Embed(fields) =>
      if Has(fields, "image") then "(image)"
      else if Has(fields, "twitter") then "(tweet)"
      else if Has(fields, "video") then "(video)"
      else ""
  }

  function NonEmpty(texts: seq<string>): seq<string>
  {
    if texts == [] then []
    else NonEmpty(texts[..|texts| - 1]) + if texts[|texts| - 1] != "" then [texts[|texts| - 1]] else []
  }

  function Join(texts: seq<string>, separator: string): string
  {
    if texts == [] then ""
    else if |texts| == 1 then texts[0]
    else texts[0] + separator + Join(texts[1..], separator)
  }

  /** Every run of spaces becomes one space. */
  function Collapse(s: string): string
  {
    if s == "" then ""
    else if |s| > 1 && s[0] == ' ' && s[1] == ' ' then Collapse(s[1..])
    else [s[0]] + Collapse(s[1..])
  }

  function ChildTexts(children: seq<Op>): seq<string>
  {
    seq(|children|, i requires 0 <= i < |children| => ChildText(children[i]))
  }

  function ParagraphOf(parent: Group): string
  {
    Collapse(Join(NonEmpty(ChildTexts(parent.children)), " "))
  }

  function Paragraphs(groups: seq<Group>): seq<string>
  {
    NonEmpty(seq(|groups|, i requires 0 <= i < |groups| => ParagraphOf(groups[i])))
  }

  const PARAGRAPH_SEPARATOR := "\n\n"

  function RenderQuillDeltaToText(ops: seq<Op>): string
  {
    Join(Paragraphs(Preprocessed(ops)), PARAGRAPH_SEPARATOR)
  }

  // ----- trimming blank lines does not change the text

  lemma BlankSaysNothing(g: Group)
    requires IsBlank(g)
    ensures ParagraphOf(g) == ""
  {
    assert TrimRight("\n") == "" by {
      assert "\n"[..0] == "";
    }
    assert ChildTexts(g.children) == [""];
    assert [""][..0] == [];
  }

  lemma ParagraphsSnoc(groups: seq<Group>, g: Group)
    ensures Paragraphs(groups + [g]) == Paragraphs(groups) + if ParagraphOf(g) != "" then [ParagraphOf(g)] else []
  {
    hide ParagraphOf;
    var texts := seq(|groups + [g]|, i requires 0 <= i < |groups + [g]| => ParagraphOf((groups + [g])[i]));
    assert texts[..|groups|] == seq(|groups|, i requires 0 <= i < |groups| => ParagraphOf(groups[i]));
  }

  lemma {:induction false} TrimKeepsParagraphs(groups: seq<Group>)
    ensures Paragraphs(Trim(groups)) == Paragraphs(groups)
  {
    if groups != [] && IsBlank(groups[|groups| - 1]) {
      hide Paragraphs, ParagraphOf;
      var init, g := groups[..|groups| - 1], groups[|groups| - 1];
      assert groups == init + [g];
      TrimKeepsParagraphs(init);
      ParagraphsSnoc(init, g);
      BlankSaysNothing(g);
    }
  }

  /** The text is that of the whole document: the blank lines dropped at its end say nothing. */
  lemma TrimmingIsInvisibleInText(ops: seq<Op>)
    ensures RenderQuillDeltaToText(ops) == Join(Paragraphs(Grouped(ops)), PARAGRAPH_SEPARATOR)
  {
    hide Paragraphs, Join;
    TrimKeepsParagraphs(Grouped(ops));
  }

  // ----- the shape of a paragraph

  predicate NoDoubleSpace(s: string)
  {
    forall i :: 0 <= i < |s| - 1 ==> !(s[i] == ' ' && s[i + 1] == ' ')
  }

  lemma {:induction false} CollapseIsSingleSpaced(s: string)
    ensures NoDoubleSpace(Collapse(s))
    ensures (s == "") == (Collapse(s) == "")
    ensures s != "" ==> Collapse(s)[0] == s[0]
    ensures forall c :: c in Collapse(s) ==> c in s
  {
    if s != "" {
      CollapseIsSingleSpaced(s[1..]);
    }
  }

  predicate OneLine(s: string)
  {
    '\n' !in s
  }

  lemma {:induction false} TrimRightIsPrefix(s: string)
    ensures TrimRight(s) <= s
    ensures TrimRight(s) != "" ==> !IsSpace(TrimRight(s)[|TrimRight(s)| - 1])
  {
    if s != "" && IsSpace(s[|s| - 1]) {
      TrimRightIsPrefix(s[..|s| - 1]);
    }
  }

  lemma ChildTextIsOneLine(child: Op)
    requires IsPiece(child) || IsBreak(child)
    ensures OneLine(ChildText(child))
  {
    if child.insert.Text? {
      hide IsSpace;
      var s := child.insert.text;
      TrimRightIsPrefix(s);
      var t := TrimRight(s);
      NewlineIsSpace();
      if IsLineText(s) {
        assert |t| < |s| ==> t <= s[..|s| - 1];
      }
    }
  }

  lemma NewlineIsSpace()
    ensures IsSpace('\n')
  {
  }

  lemma {:induction false} NonEmptyIsSubset(texts: seq<string>)
    ensures forall t :: t in NonEmpty(texts) ==> t in texts && t != ""
  {
    if texts != [] {
      NonEmptyIsSubset(texts[..|texts| - 1]);
    }
  }

  lemma {:induction false} JoinIsOneLine(texts: seq<string>)
    requires forall t :: t in texts ==> OneLine(t)
    ensures OneLine(Join(texts, " "))
  {
    if |texts| > 1 {
      assert texts[0] in texts;
      JoinIsOneLine(texts[1..]);
    } else if |texts| == 1 {
      assert texts[0] in texts;
    }
  }

  /** A proper paragraph: not empty, on one line, single-spaced. */
  predicate IsParagraph(s: string)
  {
    s != "" && OneLine(s) && NoDoubleSpace(s)
  }

  lemma ProperGroupsMakeParagraphs(g: Group)
    requires IsProper(g) && ParagraphOf(g) != ""
    ensures IsParagraph(ParagraphOf(g))
  {
    hide IsPiece, IsBreak, ChildText, OneLine, NoDoubleSpace;
    var texts := ChildTexts(g.children);
    forall t | t in texts ensures OneLine(t) {
      var i :| 0 <= i < |texts| && texts[i] == t;
      ChildTextIsOneLine(g.children[i]);
    }
    NonEmptyIsSubset(texts);
    JoinIsOneLine(NonEmpty(texts));
    CollapseIsSingleSpaced(Join(NonEmpty(texts), " "));
    OneLineSubset(Join(NonEmpty(texts), " "), ParagraphOf(g));
  }

  lemma OneLineSubset(s: string, t: string)
    requires OneLine(s) && forall c :: c in t ==> c in s
    ensures OneLine(t)
  {
  }

  lemma {:induction false} ParagraphsAreParagraphs(groups: seq<Group>)
    requires forall i :: 0 <= i < |groups| ==> IsProper(groups[i])
    ensures forall t :: t in Paragraphs(groups) ==> IsParagraph(t)
  {
    if groups == [] {
      assert Paragraphs(groups) == [];
    } else {
      hide IsProper, Paragraphs, ParagraphOf, IsParagraph;
      var init, g := groups[..|groups| - 1], groups[|groups| - 1];
      assert groups == init + [g];
      ParagraphsAreParagraphs(init);
      ParagraphsSnoc(init, g);
      if ParagraphOf(g) != "" {
        ProperGroupsMakeParagraphs(g);
      }
    }
  }

  /** Every paragraph of every rendered document is one non-empty, single-spaced line. */
  lemma RenderedParagraphs(ops: seq<Op>)
    ensures forall t :: t in Paragraphs(Preprocessed(ops)) ==> IsParagraph(t)
  {
    hide IsProper, IsComplete, IsCode, IsBlank, Paragraphs, Preprocessed, IsParagraph;
    ResultIsWellFormed(ops);
    ParagraphsAreParagraphs(Preprocessed(ops));
  }

  // ----- the paragraphs can be read back from the text

  function FirstNewline(s: string): (n: nat)
    ensures n <= |s|
    ensures n < |s| ==> s[n] == '\n'
    ensures forall i :: 0 <= i < n ==> s[i] != '\n'
  {
    if s == "" || s[0] == '\n' then 0 else 1 + FirstNewline(s[1..])
  }

  /** The text up to the first newline is the first paragraph. */
  lemma FirstNewlineAfter(t: string, rest: string)
    requires OneLine(t)
    requires rest == "" || rest[0] == '\n'
    ensures FirstNewline(t + rest) == |t|
  {
    hide FirstNewline;
    forall i | 0 <= i < |t| ensures (t + rest)[i] != '\n' {
      assert t[i] in t;
    }
    if rest != "" {
      assert (t + rest)[|t|] == '\n';
    }
  }

  /** What follows the first paragraph: nothing, or a separator and the other paragraphs. */
  function Following(texts: seq<string>): string
    requires texts != []
  {
    if |texts| == 1 then "" else PARAGRAPH_SEPARATOR + Join(texts[1..], PARAGRAPH_SEPARATOR)
  }

  lemma JoinStartsWithFirst(texts: seq<string>)
    requires texts != [] && OneLine(texts[0])
    ensures var s := Join(texts, PARAGRAPH_SEPARATOR);
      && s == texts[0] + Following(texts)
      && FirstNewline(s) == |texts[0]|
  {
    hide OneLine, FirstNewline;
    FirstNewlineAfter(texts[0], Following(texts));
    if |texts| > 1 {
      assert texts[0] + PARAGRAPH_SEPARATOR + Join(texts[1..], PARAGRAPH_SEPARATOR) ==
             texts[0] + (PARAGRAPH_SEPARATOR + Join(texts[1..], PARAGRAPH_SEPARATOR));
    }
  }

  lemma {:induction false} JoinIsInjective(texts: seq<string>, texts': seq<string>)
    requires forall t :: t in texts ==> t != "" && OneLine(t)
    requires forall t :: t in texts' ==> t != "" && OneLine(t)
    requires Join(texts, PARAGRAPH_SEPARATOR) == Join(texts', PARAGRAPH_SEPARATOR)
    ensures texts == texts'
  {
    if texts == [] || texts' == [] {
      JoinIsEmpty(texts);
      JoinIsEmpty(texts');
    } else {
      hide Join, OneLine, FirstNewline;
      assert texts[0] in texts && texts'[0] in texts';
      JoinStartsWithFirst(texts);
      JoinStartsWithFirst(texts');
      SameStart(texts[0], Following(texts), texts'[0], Following(texts'));
      FollowingDetermines(texts, texts');
      if |texts| > 1 {
        assert forall t :: t in texts[1..] ==> t in texts;
        assert forall t :: t in texts'[1..] ==> t in texts';
        JoinIsInjective(texts[1..], texts'[1..]);
      }
      SameHeadAndTail(texts, texts');
    }
  }

  lemma SameHeadAndTail(texts: seq<string>, texts': seq<string>)
    requires texts != [] && texts' != [] && texts[0] == texts'[0]
    requires |texts| == |texts'| == 1 || texts[1..] == texts'[1..]
    ensures texts == texts'
  {
  }

  lemma JoinIsEmpty(texts: seq<string>)
    requires forall t :: t in texts ==> t != ""
    ensures Join(texts, PARAGRAPH_SEPARATOR) == "" <==> texts == []
  {
    if texts != [] {
      assert texts[0] in texts;
    }
  }

  lemma SameStart(t: string, rest: string, t': string, rest': string)
    requires t + rest == t' + rest' && |t| == |t'|
    ensures t == t' && rest == rest'
  {
    assert t == (t + rest)[..|t|] && t' == (t' + rest')[..|t|];
    assert rest == (t + rest)[|t|..] && rest' == (t' + rest')[|t|..];
  }

  lemma FollowingDetermines(texts: seq<string>, texts': seq<string>)
    requires texts != [] && texts' != [] && Following(texts) == Following(texts')
    ensures |texts| == 1 <==> |texts'| == 1
    ensures |texts| > 1 ==> Join(texts[1..], PARAGRAPH_SEPARATOR) == Join(texts'[1..], PARAGRAPH_SEPARATOR)
  {
    hide Join;
    if |texts| > 1 && |texts'| > 1 {
      SameStart(PARAGRAPH_SEPARATOR, Join(texts[1..], PARAGRAPH_SEPARATOR),
                PARAGRAPH_SEPARATOR, Join(texts'[1..], PARAGRAPH_SEPARATOR));
    }
  }

  /** Two documents render to the same text exactly when they have the same paragraphs. */
  lemma TextDeterminesParagraphs(ops: seq<Op>, ops': seq<Op>)
    ensures RenderQuillDeltaToText(ops) == RenderQuillDeltaToText(ops') <==>
            Paragraphs(Preprocessed(ops)) == Paragraphs(Preprocessed(ops'))
  {
    hide Paragraphs, Preprocessed, Join;
    RenderedParagraphs(ops);
    RenderedParagraphs(ops');
    if RenderQuillDeltaToText(ops) == RenderQuillDeltaToText(ops') {
      JoinIsInjective(Paragraphs(Preprocessed(ops)), Paragraphs(Preprocessed(ops')));
    }
  }

  // ----- no visible character is lost

  /** White space, by the code numbers that ECMAScript lists as white space and line terminators. */
  lemma SpacesByNumber(c: char)
    ensures IsSpace(c) <==>
      var n := c as int;
      n in {9, 10, 11, 12, 13, 32, 160, 5760, 8232, 8233, 8239, 8287, 12288, 65279} || 8192 <= n <= 8202
  {
  }

  /** The characters of a text that are not white space. */
  function Visible(s: string): string
  {
    if s == "" then "" else Visible(s[..|s| - 1]) + if IsSpace(s[|s| - 1]) then "" else [s[|s| - 1]]
  }

  lemma {:induction false} VisibleConcat(s: string, t: string)
    ensures Visible(s + t) == Visible(s) + Visible(t)
  {
    if t == "" {
      assert s + t == s;
    } else {
      hide IsSpace;
      var n := |t| - 1;
      assert (s + t)[..|s + t| - 1] == s + t[..n];
      VisibleConcat(s, t[..n]);
    }
  }

  lemma {:induction false} TrimmingIsInvisible(s: string)
    ensures Visible(TrimRight(s)) == Visible(s)
  {
    if s != "" && IsSpace(s[|s| - 1]) {
      hide IsSpace;
      TrimmingIsInvisible(s[..|s| - 1]);
    }
  }

  lemma VisibleOne(c: char)
    ensures Visible([c]) == if IsSpace(c) then "" else [c]
  {
    hide IsSpace;
    assert [c][..0] == "";
  }

  lemma {:induction false} CollapsingIsInvisible(s: string)
    ensures Visible(Collapse(s)) == Visible(s)
  {
    if s != "" {
      hide IsSpace;
      assert s == [s[0]] + s[1..];
      CollapsingIsInvisible(s[1..]);
      VisibleConcat([s[0]], s[1..]);
      VisibleConcat([s[0]], Collapse(s[1..]));
      VisibleOne(s[0]);
      assert IsSpace(' ') by { SpacesByNumber(' '); }
    }
  }

  function VisibleAll(texts: seq<string>): string
  {
    if texts == [] then "" else VisibleAll(texts[..|texts| - 1]) + Visible(texts[|texts| - 1])
  }

  lemma {:induction false} VisibleAllConcat(a: seq<string>, b: seq<string>)
    ensures VisibleAll(a + b) == VisibleAll(a) + VisibleAll(b)
  {
    if b == [] {
      assert a + b == a;
    } else {
      hide Visible;
      assert (a + b)[..|a + b| - 1] == a + b[..|b| - 1];
      VisibleAllConcat(a, b[..|b| - 1]);
    }
  }

  lemma {:induction false} NonEmptyIsInvisible(texts: seq<string>)
    ensures VisibleAll(NonEmpty(texts)) == VisibleAll(texts)
  {
    if texts != [] {
      hide NonEmpty, VisibleAll;
      var n := |texts| - 1;
      NonEmptySnoc(texts[..n], texts[n]);
      assert texts == texts[..n] + [texts[n]];
      NonEmptyIsInvisible(texts[..n]);
      assert NonEmpty(texts[..n]) + [] == NonEmpty(texts[..n]);
      VisibleAllConcat(texts[..n], [texts[n]]);
      VisibleAllConcat(NonEmpty(texts[..n]), [texts[n]]);
      VisibleAllOne(texts[n]);
    } else {
      assert NonEmpty(texts) == texts;
    }
  }

  lemma NonEmptySnoc(texts: seq<string>, t: string)
    ensures NonEmpty(texts + [t]) == NonEmpty(texts) + if t != "" then [t] else []
  {
  }

  lemma VisibleAllOne(t: string)
    ensures VisibleAll([t]) == Visible(t)
    ensures Visible("") == "" && VisibleAll([]) == ""
  {
    assert [t][..0] == [];
  }

  lemma {:induction false} JoiningIsInvisible(texts: seq<string>, separator: string)
    requires Visible(separator) == ""
    ensures Visible(Join(texts, separator)) == VisibleAll(texts)
  {
    if texts == [] {
      VisibleAllOne("");
    } else if |texts| == 1 {
      VisibleAllOne(texts[0]);
      assert texts == [texts[0]];
    } else {
      hide Visible, VisibleAll;
      JoiningIsInvisible(texts[1..], separator);
      VisibleConcat(texts[0], separator);
      VisibleConcat(texts[0] + separator, Join(texts[1..], separator));
      assert texts == [texts[0]] + texts[1..];
      VisibleAllConcat([texts[0]], texts[1..]);
      VisibleAllOne(texts[0]);
    }
  }

  /** What should be visible of one operation: its text, or a label for what is embedded. */
  function VisibleOf(op: Op): string
  {
    match op.insert
    case Text(s) => Visible(s)
    case Embed(fields) =>
      if "image" in fields && fields["image"].Truthy() then "(image)"
      else if "twitter" in fields && fields["twitter"].Truthy() then "(tweet)"
      else if "video" in fields && fields["video"].Truthy() then "(video)"
      else ""
  }

  function VisibleOps(ops: seq<Op>): string
  {
    if ops == [] then "" else VisibleOps(ops[..|ops| - 1]) + VisibleOf(ops[|ops| - 1])
  }

  lemma VisibleOpsSnoc(ops: seq<Op>, op: Op)
    ensures VisibleOps([]) == ""
    ensures VisibleOps(ops + [op]) == VisibleOps(ops) + VisibleOf(op)
  {
    hide VisibleOf;
    assert (ops + [op])[..|ops|] == ops;
  }

  lemma {:induction false} VisibleOpsConcat(a: seq<Op>, b: seq<Op>)
    ensures VisibleOps(a + b) == VisibleOps(a) + VisibleOps(b)
  {
    hide *;
    if b == [] {
      assert a + b == a;
      VisibleOpsSnoc(a, Op(Text(""), None));
    } else {
      var init, op := b[..|b| - 1], b[|b| - 1];
      assert a + b == (a + init) + [op] && b == init + [op];
      VisibleOpsConcat(a, init);
      VisibleOpsSnoc(a + init, op);
      VisibleOpsSnoc(init, op);
      assert (VisibleOps(a) + VisibleOps(init)) + VisibleOf(op) == VisibleOps(a) + (VisibleOps(init) + VisibleOf(op));
    }
  }

  lemma ImageIsVisible()
    ensures Visible("(image)") == "(image)"
  {
    hide *;
    AllVisible("(image)");
  }

  lemma TweetIsVisible()
    ensures Visible("(tweet)") == "(tweet)"
  {
    hide *;
    AllVisible("(tweet)");
  }

  lemma VideoIsVisible()
    ensures Visible("(video)") == "(video)"
  {
    hide *;
    AllVisible("(video)");
  }

  lemma {:induction false} AllVisible(s: string)
    requires forall i :: 0 <= i < |s| ==> 33 <= s[i] as int <= 126
    ensures Visible(s) == s
  {
    if s != "" {
      hide IsSpace;
      SpacesByNumber(s[|s| - 1]);
      AllVisible(s[..|s| - 1]);
      assert s == s[..|s| - 1] + [s[|s| - 1]];
    }
  }

  lemma ChildTextIsVisible(child: Op)
    ensures Visible(ChildText(child)) == VisibleOf(child)
  {
    hide Visible;
    ImageIsVisible();
    TweetIsVisible();
    VideoIsVisible();
    VisibleAllOne("");
    if child.insert.Text? {
      TrimmingIsInvisible(child.insert.text);
    }
  }

  lemma {:induction false} ChildTextsAreVisible(children: seq<Op>)
    ensures VisibleAll(ChildTexts(children)) == VisibleOps(children)
  {
    if children != [] {
      hide Visible, VisibleOf, ChildText;
      var n := |children| - 1;
      ChildTextsAreVisible(children[..n]);
      ChildTextIsVisible(children[n]);
      assert ChildTexts(children)[..n] == ChildTexts(children[..n]);
    }
  }

  lemma ParagraphIsVisible(g: Group)
    ensures Visible(ParagraphOf(g)) == VisibleOps(g.children)
  {
    hide Visible, VisibleAll, Collapse, Join, NonEmpty, ChildTexts, IsSpace;
    var texts := NonEmpty(ChildTexts(g.children));
    VisibleOne(' ');
    SpacesByNumber(' ');
    CollapsingIsInvisible(Join(texts, " "));
    JoiningIsInvisible(texts, " ");
    NonEmptyIsInvisible(ChildTexts(g.children));
    ChildTextsAreVisible(g.children);
  }

  /** All children of all groups. */
  function Children(groups: seq<Group>): seq<Op>
  {
    if groups == [] then [] else Children(groups[..|groups| - 1]) + groups[|groups| - 1].children
  }

  lemma {:induction false} ParagraphsAreVisible(groups: seq<Group>)
    ensures VisibleAll(Paragraphs(groups)) == VisibleOps(Children(groups))
  {
    hide Visible, VisibleOps, ParagraphOf, Paragraphs, VisibleAll;
    if groups == [] {
      NoParagraphs();
    } else {
      var n := |groups| - 1;
      var init, g := groups[..n], groups[n];
      assert groups == init + [g];
      ParagraphsAreVisible(init);
      ParagraphsSnoc(init, g);
      ParagraphIsVisible(g);
      VisibleOpsConcat(Children(init), g.children);
      VisibleAllConcat(Paragraphs(init), [ParagraphOf(g)]);
      VisibleAllOne(ParagraphOf(g));
      assert Paragraphs(init) + [] == Paragraphs(init);
    }
  }

  lemma NoParagraphs()
    ensures Paragraphs([]) == [] && VisibleAll([]) == "" && VisibleOps([]) == ""
  {
  }

  lemma {:induction false} FlatIsVisible(groups: seq<Group>)
    ensures VisibleOps(Flat(groups)) == VisibleOps(Children(groups))
  {
    if groups != [] {
      hide VisibleOps, FlatGroup;
      var n := |groups| - 1;
      FlatIsVisible(groups[..n]);
      VisibleOpsConcat(Flat(groups[..n]), FlatGroup(groups[n]));
      VisibleOpsConcat(Children(groups[..n]), groups[n].children);
      SameInserts(FlatGroup(groups[n]), groups[n].children) by {
        FlatGroupInserts(groups[n]);
      }
    }
  }

  lemma FlatGroupInserts(g: Group)
    ensures |FlatGroup(g)| == |g.children| && forall i :: 0 <= i < |g.children| ==> FlatGroup(g)[i].insert == g.children[i].insert
  {
  }

  lemma {:induction false} SameInserts(a: seq<Op>, b: seq<Op>)
    requires |a| == |b| && forall i :: 0 <= i < |a| ==> a[i].insert == b[i].insert
    ensures VisibleOps(a) == VisibleOps(b)
  {
    if a != [] {
      hide Visible;
      SameInserts(a[..|a| - 1], b[..|b| - 1]);
    }
  }

  lemma {:induction false} TokensAreVisible(s: string, attributes: Option<Attributes>)
    ensures VisibleOps(WithAttributes(Tokens(s), attributes)) == Visible(s)
    decreases |s|
  {
    if s == "" {
      hide Visible, IsSpace;
      VisibleAllOne("");
    } else {
      hide *;
      var n := TokenLength(s);
      var first := Op(Text(s[..n]), attributes);
      TokensUnfold(s, attributes);
      TokensAreVisible(s[n..], attributes);
      VisibleOpsConcat([first], WithAttributes(Tokens(s[n..]), attributes));
      VisibleText(s[..n], attributes);
      assert s == s[..n] + s[n..];
      VisibleConcat(s[..n], s[n..]);
    }
  }

  lemma VisibleText(s: string, attributes: Option<Attributes>)
    ensures VisibleOps([Op(Text(s), attributes)]) == Visible(s)
  {
    hide Visible;
    VisibleOpsOne(Op(Text(s), attributes));
  }

  lemma VisibleOpsOne(op: Op)
    ensures VisibleOps([op]) == VisibleOf(op)
  {
    hide VisibleOf;
    assert [op][..0] == [];
  }

  lemma {:induction false} LinesAreVisible(ops: seq<Op>)
    ensures VisibleOps(Lines(ops)) == VisibleOps(ops)
  {
    if ops != [] {
      hide VisibleOps, Visible, Tokens, WithAttributes;
      var n := |ops| - 1;
      var op := ops[n];
      assert ops == ops[..n] + [op];
      LinesAreVisible(ops[..n]);
      VisibleOpsConcat(Lines(ops[..n]), LinesOf(op));
      VisibleOpsConcat(ops[..n], [op]);
      VisibleOpsOne(op);
      if op.insert.Text? {
        TokensAreVisible(op.insert.text, op.attributes);
      }
    }
  }

  lemma {:induction false} BlanksAreInvisible(ops: seq<Op>)
    requires AllBlank(ops)
    ensures VisibleOps(ops) == ""
  {
    if ops != [] {
      hide Visible, IsSpace;
      BlanksAreInvisible(ops[..|ops| - 1]);
      VisibleOne('\n');
      SpacesByNumber('\n');
    }
  }

  lemma SeparatorIsInvisible()
    ensures Visible("\n\n") == ""
  {
    hide IsSpace;
    assert "\n\n" == "\n" + "\n";
    VisibleConcat("\n", "\n");
    VisibleOne('\n');
    SpacesByNumber('\n');
  }

  /**
   No visible character of a document is lost, added or moved: up to white space, its text
   is the text of its operations in order, with a label for every image, tweet and video.
   */
  lemma VisibleTextIsKept(ops: seq<Op>)
    ensures Visible(RenderQuillDeltaToText(ops)) == VisibleOps(ops)
  {
    hide *;
    var groups := Preprocessed(ops);
    RenderUnfold(ops);
    SeparatorIsInvisible();
    JoiningIsInvisible(Paragraphs(groups), "\n\n");
    ParagraphsAreVisible(groups);
    FlatIsVisible(groups);
    var dropped := NothingIsLost(ops);
    VisibleOpsConcat(Flat(groups), dropped);
    BlanksAreInvisible(dropped);
    SameOpsSameInserts(Flat(groups) + dropped, Lines(ops));
    SameInserts(Flat(groups) + dropped, Lines(ops));
    LinesAreVisible(ops);
    assert VisibleOps(Flat(groups)) + "" == VisibleOps(Flat(groups));
  }

  lemma RenderUnfold(ops: seq<Op>)
    ensures RenderQuillDeltaToText(ops) == Join(Paragraphs(Preprocessed(ops)), "\n\n")
  {
  }

  lemma SameOpsSameInserts(a: seq<Op>, b: seq<Op>)
    requires SameOps(a, b)
    ensures |a| == |b| && forall i :: 0 <= i < |a| ==> a[i].insert == b[i].insert
  {
  }

  /** Text that has no double space is left as it is, so words stay apart and together as they were. */
  lemma {:induction false} CollapseKeepsSingleSpaced(s: string)
    requires NoDoubleSpace(s)
    ensures Collapse(s) == s
  {
    if s != "" {
      assert forall i :: 0 <= i < |s[1..]| ==> s[1..][i] == s[i + 1];
      CollapseKeepsSingleSpaced(s[1..]);
      assert s == [s[0]] + s[1..];
    }
  }

  lemma {:induction false} NothingToCollapse(s: string)
    requires forall i :: 0 <= i < |s| ==> !IsSpace(s[i])
    ensures NoDoubleSpace(s) && TrimRight(s) == s
  {
    SpacesByNumber(' ');
  }

  /** Two pieces of a line are two words of its paragraph, separated by one space. */
  lemma PiecesAreSeparated(a: string, b: string, attributes: Option<Attributes>)
    requires a != "" && b != ""
    requires forall i :: 0 <= i < |a| ==> !IsSpace(a[i])
    requires forall i :: 0 <= i < |b| ==> !IsSpace(b[i])
    ensures ParagraphOf(Group([Op(Text(a), attributes), Op(Text(b), attributes)], attributes)) == a + " " + b
  {
    var children := [Op(Text(a), attributes), Op(Text(b), attributes)];
    NothingToCollapse(a);
    NothingToCollapse(b);
    hide TrimRight, Collapse;
    assert ChildTexts(children) == [a, b];
    NonEmptySnoc([a], b);
    NonEmptySnoc([], a);
    assert [a] + [b] == [a, b] && [] + [a] == [a];
    assert Join([a, b][1..], " ") == b;
    SpacesByNumber(' ');
    CollapseKeepsSingleSpaced(a + " " + b);
  }
}
