/**
 The comments table: creating a comment (and perhaps destroying it again when its thread
 turns out to be missing or read-only), editing and deleting. Deleted rows stay in the
 table, hidden from every lookup.
 */
module Comments {
  import opened Wrappers
  import opened VersionHistory
  import opened QuillText

  /** Every comment belongs to a community or else to a chain. */
  datatype Scope = InCommunity(id: string) | InChain(id: string)

  datatype Comment = Comment(scope: Scope, rootId: string, parentId: Option<nat>, childComments: seq<nat>,
                             addressId: nat, text: string, history: seq<Version>, isDeleted: bool)

  type Rows = map<nat, Comment>

  /** The rows and the next id of the id sequence. */
  datatype Table = Table(rows: Rows, nextId: nat)

  /** What the lookup of the discussion behind a root id finds. */
  datatype Discussion = Missing | ReadOnly | Open

  datatype CreateRequest = CreateRequest(scope: Scope, addressId: nat, rootId: string, parentId: Option<nat>, text: string,
                                         hasAttachments: bool, isEmptyDocument: bool, discussion: Discussion)

  datatype Error = InvalidParent | MissingRootId | MissingTextOrAttachment | ThreadNotFound | CantCommentOnReadOnly
                 | NotOwned | MalformedText | NoProposal

  predicate IsVisible(rows: Rows, id: nat)
  {
    id in rows && !rows[id].isDeleted
  }

  /** The reason a request is refused before anything is written. */
  function Refusal(rows: Rows, r: CreateRequest, decode: Decoder): Option<Error>
  {
    if decode(r.text).None? then Some(MalformedText)
    else if r.parentId.Some? && !(IsVisible(rows, r.parentId.value) && rows[r.parentId.value].scope == r.scope) then Some(InvalidParent)
    else if r.rootId == "" then Some(MissingRootId)
    else if IsBlankText(r.text) && !r.hasAttachments then Some(MissingTextOrAttachment)
    else if r.isEmptyDocument && !r.hasAttachments then Some(MissingTextOrAttachment)
    else None
  }

  function NewComment(r: CreateRequest, decoded: string, now: int): Comment
  {
    Comment(r.scope, r.rootId, r.parentId, [], r.addressId, r.text, [Version(now, decoded)], r.discussion != Open)
  }

  function WithChild(c: Comment, id: nat): Comment
  {
    c.(childComments := c.childComments + [id])
  }

  /** The rows after a comment was written, linked to its parent, and perhaps destroyed again. */
  function Created(t: Table, r: CreateRequest, decode: Decoder, now: int): Table
  {
    if Refusal(t.rows, r, decode).Some? then t else
    var linked := if r.parentId.Some?
                  then t.rows[r.parentId.value := WithChild(t.rows[r.parentId.value], t.nextId)] else t.rows;
    Table(linked[t.nextId := NewComment(r, decode(r.text).GetOr(""), now)], t.nextId + 1)
  }

  function Outcome(t: Table, r: CreateRequest, decode: Decoder): Result<nat, Error>
  {
    if Refusal(t.rows, r, decode).Some? then Failure(Refusal(t.rows, r, decode).value)
    else match r.discussion
      case Missing => Failure(ThreadNotFound)
      case ReadOnly => Failure(CantCommentOnReadOnly)
      case Open => Success(t.nextId)
  }

  /** Whether the edit of a comment is stored. */
  predicate IsAccepted(rows: Rows, id: nat, owned: set<nat>, text: string, decode: Decoder)
  {
    IsVisible(rows, id) && rows[id].addressId in owned && decode(text).Some?
  }

  /** The answer to an edit request. The discussion is looked up only after the edit was stored. */
  function EditOutcome(t: Table, id: nat, owned: set<nat>, text: string, discussion: Discussion, decode: Decoder): Result<(), Error>
  {
    if decode(text).None? then Failure(MalformedText)
    else if !IsVisible(t.rows, id) || t.rows[id].addressId !in owned then Failure(NotOwned)
    else if discussion == Missing then Failure(NoProposal)
    else Success(())
  }

  function Edited(t: Table, id: nat, owned: set<nat>, text: string, decode: Decoder, now: int): Table
  {
    if !IsAccepted(t.rows, id, owned, text, decode) then t
    else
      var c := t.rows[id];
      t.(rows := t.rows[id := c.(text := text, history := Recorded(c.history, now, decode(text).value))])
  }

  function Deleted(t: Table, id: nat, owned: set<nat>): Table
  {
    if !IsVisible(t.rows, id) || t.rows[id].addressId !in owned then t
    else t.(rows := t.rows[id := t.rows[id].(isDeleted := true)])
  }

  class CommentStore {
    var rows: Rows
    var nextId: nat

    function Model(): Table
      reads this
    {
      Table(rows, nextId)
    }

    predicate Valid()
      reads this
    {
      forall id :: id in rows ==> id < nextId
    }

    constructor ()
      ensures Valid() && Model() == Table(map[], 0)
    {
      rows, nextId := map[], 0;
    }

    method Create(r: CreateRequest, decode: Decoder, now: int) returns (result: Result<nat, Error>)
      requires Valid()
      modifies this
      ensures Valid() && Model() == Created(old(Model()), r, decode, now)
      ensures result == Outcome(old(Model()), r, decode)
    {
      hide IsBlankText;
      var refusal := Refusal(rows, r, decode);
      if refusal.Some? {
        return Failure(refusal.value);
      }
      var id := nextId;
      var decoded := decode(r.text).GetOr("");
      rows := rows[id := Comment(r.scope, r.rootId, r.parentId, [], r.addressId, r.text, [Version(now, decoded)], false)];
      nextId := nextId + 1;
      if r.parentId.Some? {
        var parentComment := rows[r.parentId.value];
        var arr := parentComment.childComments;
        arr := arr + [id];
        rows := rows[r.parentId.value := parentComment.(childComments := arr)];
      }
      if r.discussion == Missing {
        rows := rows[id := rows[id].(isDeleted := true)];
        return Failure(ThreadNotFound);
      }
      if r.discussion == ReadOnly {
        rows := rows[id := rows[id].(isDeleted := true)];
        return Failure(CantCommentOnReadOnly);
      }
      return Success(id);
    }

    method Edit(id: nat, owned: set<nat>, text: string, discussion: Discussion, decode: Decoder, now: int)
      returns (result: Result<(), Error>)
      requires Valid()
      modifies this
      ensures Valid() && Model() == Edited(old(Model()), id, owned, text, decode, now)
      ensures result == EditOutcome(old(Model()), id, owned, text, discussion, decode)
    {
      var decoded := decode(text);
      if decoded.None? {
        return Failure(MalformedText);
      }
      if !IsVisible(rows, id) || rows[id].addressId !in owned {
        return Failure(NotOwned);
      }
      var comment := rows[id];
      if !(|comment.history| > 0 && comment.history[0].body == decoded.value) {
        var arr := comment.history;
        arr := [Version(now, decoded.value)] + arr;
        comment := comment.(history := arr);
      }
      rows := rows[id := comment.(text := text)];
      if discussion == Missing {
        return Failure(NoProposal);
      }
      return Success(());
    }

    method Delete(id: nat, owned: set<nat>) returns (result: Result<(), Error>)
      requires Valid()
      modifies this
      ensures Valid() && Model() == Deleted(old(Model()), id, owned)
      ensures result.Success? <==> IsVisible(old(rows), id) && old(rows)[id].addressId in owned
    {
      if !IsVisible(rows, id) || rows[id].addressId !in owned {
        return Failure(NotOwned);
      }
      rows := rows[id := rows[id].(isDeleted := true)];
      return Success(());
    }
  }

  // ----- the forest

  /** Each parent is an older row of the same scope that lists the comment. */
  ghost predicate ParentsListTheirChildren(rows: Rows)
  {
    forall id :: id in rows && rows[id].parentId.Some? ==> IsChildOf(rows, id, rows[id].parentId.value)
  }

  ghost predicate IsChildOf(rows: Rows, id: nat, p: nat)
    requires id in rows
  {
    p in rows && p < id && rows[p].scope == rows[id].scope && id in rows[p].childComments
  }

  /** Every listed child points back, and is listed once. */
  ghost predicate ChildrenPointBack(rows: Rows)
  {
    forall p :: p in rows ==> ListsOwnChildren(rows, p)
  }

  ghost predicate ListsOwnChildren(rows: Rows, p: nat)
    requires p in rows
  {
    && (forall i :: 0 <= i < |rows[p].childComments| ==>
          rows[p].childComments[i] in rows && rows[rows[p].childComments[i]].parentId == Some(p))
    && (forall i, j :: 0 <= i < j < |rows[p].childComments| ==> rows[p].childComments[i] != rows[p].childComments[j])
  }

  ghost predicate IsForest(rows: Rows)
  {
    ParentsListTheirChildren(rows) && ChildrenPointBack(rows)
  }

  /** The history of each row is well kept for its current text. */
  ghost predicate KeepsHistories(rows: Rows, decode: Decoder)
  {
    forall id :: id in rows ==> decode(rows[id].text).Some? && IsWellKept(rows[id].history, decode(rows[id].text).value)
  }

  ghost predicate IsGood(t: Table, decode: Decoder)
  {
    (forall id :: id in t.rows ==> id < t.nextId) && IsForest(t.rows) && KeepsHistories(t.rows, decode)
  }

  /** Rows stay, keep what ties them into the forest, and their lists and histories only grow. */
  ghost predicate Evolves(before: Rows, after: Rows)
  {
    forall id :: id in before ==> id in after && RowEvolves(before[id], after[id])
  }

  ghost predicate RowEvolves(c: Comment, d: Comment)
  {
    && d.scope == c.scope && d.rootId == c.rootId && d.parentId == c.parentId && d.addressId == c.addressId
    && c.childComments <= d.childComments && IsSuffix(c.history, d.history) && (c.isDeleted ==> d.isDeleted)
  }

  /** An update that leaves the links alone keeps the forest. */
  lemma UpdateKeepsForest(rows: Rows, id: nat, c: Comment)
    requires IsForest(rows) && id in rows
    requires c.scope == rows[id].scope && c.parentId == rows[id].parentId && c.childComments == rows[id].childComments
    ensures IsForest(rows[id := c])
  {
  }

  lemma InsertTopLevelKeepsForest(rows: Rows, id: nat, c: Comment)
    requires IsForest(rows) && id !in rows && c.parentId == None && c.childComments == []
    ensures IsForest(rows[id := c])
  {
  }

  lemma InsertReplyKeepsForest(rows: Rows, p: nat, id: nat, c: Comment)
    requires IsForest(rows) && id !in rows && p in rows && p < id
    requires c.parentId == Some(p) && c.childComments == [] && c.scope == rows[p].scope
    ensures IsForest(rows[p := WithChild(rows[p], id)][id := c])
  {
    var after := rows[p := WithChild(rows[p], id)][id := c];
    assert after[p].childComments[|rows[p].childComments|] == id;
    forall x | x in after && after[x].parentId.Some? ensures IsChildOf(after, x, after[x].parentId.value) {
      if x != id {
        assert IsChildOf(rows, x, rows[x].parentId.value);
      }
    }
    forall q | q in after ensures ListsOwnChildren(after, q) {
      if q != id {
        assert ListsOwnChildren(rows, q);
      }
    }
  }

  lemma EvolvesReflexive(rows: Rows)
    ensures Evolves(rows, rows)
  {
  }

  lemma CreateKeepsGood(t: Table, r: CreateRequest, decode: Decoder, now: int)
    requires IsGood(t, decode)
    ensures IsGood(Created(t, r, decode, now), decode) && Evolves(t.rows, Created(t, r, decode, now).rows)
  {
    hide IsForest, IsBlankText, RowEvolves, IsWellKept;
    EvolvesReflexive(t.rows);
    if Refusal(t.rows, r, decode).None? {
      var c := NewComment(r, decode(r.text).value, now);
      FirstVersionIsWellKept(now, decode(r.text).value);
      if r.parentId.Some? {
        var p := r.parentId.value;
        InsertReplyKeepsForest(t.rows, p, t.nextId, c);
        ParentEvolves(t.rows[p], t.nextId);
      } else {
        InsertTopLevelKeepsForest(t.rows, t.nextId, c);
      }
    }
  }

  lemma FirstVersionIsWellKept(now: int, body: string)
    ensures IsWellKept([Version(now, body)], body)
  {
  }

  lemma ParentEvolves(c: Comment, id: nat)
    ensures RowEvolves(c, WithChild(c, id))
  {
  }

  lemma EditKeepsGood(t: Table, id: nat, owned: set<nat>, text: string, decode: Decoder, now: int)
    requires IsGood(t, decode)
    ensures IsGood(Edited(t, id, owned, text, decode, now), decode)
    ensures Evolves(t.rows, Edited(t, id, owned, text, decode, now).rows)
  {
    hide IsForest, IsWellKept, Recorded, IsSuffix;
    EvolvesReflexive(t.rows);
    if IsAccepted(t.rows, id, owned, text, decode) {
      var c := t.rows[id];
      RecordedIsWellKept(c.history, decode(c.text).value, now, decode(text).value);
      UpdateKeepsForest(t.rows, id, c.(text := text, history := Recorded(c.history, now, decode(text).value)));
    }
  }

  lemma DeleteKeepsGood(t: Table, id: nat, owned: set<nat>, decode: Decoder)
    requires IsGood(t, decode)
    ensures IsGood(Deleted(t, id, owned), decode) && Evolves(t.rows, Deleted(t, id, owned).rows)
  {
    hide IsForest, IsWellKept, IsSuffix;
    EvolvesReflexive(t.rows);
    if IsVisible(t.rows, id) && t.rows[id].addressId in owned {
      UpdateKeepsForest(t.rows, id, t.rows[id].(isDeleted := true));
    }
  }

  // ----- runs

  datatype Request =
    | Create(r: CreateRequest)
    | Edit(id: nat, owned: set<nat>, text: string)
    | Delete(id: nat, owned: set<nat>)

  datatype Event = Event(request: Request, now: int)

  function Step(t: Table, decode: Decoder, e: Event): Table
  {
    match e.request
    case Create(r) => Created(t, r, decode, e.now)
    case Edit(id, owned, text) => Edited(t, id, owned, text, decode, e.now)
    case Delete(id, owned) => Deleted(t, id, owned)
  }

  function Run(t: Table, decode: Decoder, events: seq<Event>): Table
  {
    if events == [] then t else Step(Run(t, decode, events[..|events| - 1]), decode, events[|events| - 1])
  }

  lemma StepKeepsGood(t: Table, decode: Decoder, e: Event)
    requires IsGood(t, decode)
    ensures IsGood(Step(t, decode, e), decode) && Evolves(t.rows, Step(t, decode, e).rows)
  {
    hide IsGood, Evolves;
    match e.request
    case Create(r) => CreateKeepsGood(t, r, decode, e.now);
    case Edit(id, owned, text) => EditKeepsGood(t, id, owned, text, decode, e.now);
    case Delete(id, owned) => DeleteKeepsGood(t, id, owned, decode);
  }

  lemma EvolvesTransitive(a: Rows, b: Rows, c: Rows)
    requires Evolves(a, b) && Evolves(b, c)
    ensures Evolves(a, c)
  {
  }

  lemma EmptyIsGood(decode: Decoder)
    ensures IsGood(Table(map[], 0), decode)
  {
  }

  /**
   In every run the comments, deleted ones included, are a forest with well-kept histories;
   and no row ever changes its place, loses a child or rewrites its history.
   */
  lemma {:induction false} RunKeepsGood(t: Table, decode: Decoder, events: seq<Event>)
    requires IsGood(t, decode)
    ensures IsGood(Run(t, decode, events), decode) && Evolves(t.rows, Run(t, decode, events).rows)
  {
    hide IsGood, Evolves, Step;
    if events == [] {
      EvolvesReflexive(t.rows);
    } else {
      var before := Run(t, decode, events[..|events| - 1]);
      RunKeepsGood(t, decode, events[..|events| - 1]);
      StepKeepsGood(before, decode, events[|events| - 1]);
      EvolvesTransitive(t.rows, before.rows, Step(before, decode, events[|events| - 1]).rows);
    }
  }

  // ----- what each request does

  /** Whether a create request is written: decodable text, a visible parent of the same scope if any, a root, and something to say. */
  predicate IsWritten(rows: Rows, r: CreateRequest, decode: Decoder)
  {
    && decode(r.text).Some? && r.rootId != ""
    && (r.parentId.Some? ==> r.parentId.value in rows && !rows[r.parentId.value].isDeleted && rows[r.parentId.value].scope == r.scope)
    && (r.hasAttachments || (!r.isEmptyDocument && exists i :: 0 <= i < |r.text| && !IsSpace(r.text[i])))
  }

  lemma WrittenIff(rows: Rows, r: CreateRequest, decode: Decoder)
    ensures IsWritten(rows, r, decode) <==> Refusal(rows, r, decode).None?
  {
    hide IsSpace;
  }

  /**
   A written comment gets the next id, its first version and the end of its parent's list; it
   is visible exactly if its discussion is open. Nothing else changes, and nothing at all
   for a refused request.
   */
  lemma CreateWrites(t: Table, r: CreateRequest, decode: Decoder, now: int)
    ensures var after := Created(t, r, decode, now);
      if !IsWritten(t.rows, r, decode) then after == t else
        && after.nextId == t.nextId + 1 && after.rows.Keys == t.rows.Keys + {t.nextId}
        && var c := after.rows[t.nextId];
          && c.scope == r.scope && c.rootId == r.rootId && c.parentId == r.parentId && c.childComments == []
          && c.addressId == r.addressId && c.text == r.text
          && c.history == [Version(now, decode(r.text).value)]
          && (c.isDeleted <==> r.discussion != Open)
    ensures var after := Created(t, r, decode, now);
      forall id :: id in t.rows && id != t.nextId ==>
        id in after.rows && after.rows[id] ==
        if IsWritten(t.rows, r, decode) && r.parentId == Some(id)
        then t.rows[id].(childComments := t.rows[id].childComments + [t.nextId]) else t.rows[id]
  {
    hide IsWritten;
    WrittenIff(t.rows, r, decode);
    hide IsBlankText;
  }

  /** The answer to a create request: success is the id of a comment that can be seen. */
  lemma CreateAnswers(t: Table, r: CreateRequest, decode: Decoder, now: int)
    ensures var outcome, after := Outcome(t, r, decode), Created(t, r, decode, now);
      var written := IsWritten(t.rows, r, decode);
      && (outcome.Success? <==> written && r.discussion == Open)
      && (outcome.Success? ==> outcome.value == t.nextId && outcome.value in after.rows && IsVisible(after.rows, outcome.value))
      && (outcome == Failure(ThreadNotFound) <==> written && r.discussion == Missing)
      && (outcome == Failure(CantCommentOnReadOnly) <==> written && r.discussion == ReadOnly)
      && (outcome == Failure(MalformedText) <==> decode(r.text).None?)
      && (outcome == Failure(InvalidParent) <==>
            decode(r.text).Some? && r.parentId.Some?
            && !(r.parentId.value in t.rows && !t.rows[r.parentId.value].isDeleted && t.rows[r.parentId.value].scope == r.scope))
      && (outcome == Failure(MissingRootId) ==> r.rootId == "")
      && (outcome == Failure(MissingTextOrAttachment) ==> r.rootId != "" && !r.hasAttachments)
  {
    hide IsWritten;
    WrittenIff(t.rows, r, decode);
    hide IsBlankText;
  }

  /** An edit replaces the text and the history of its comment, and nothing else. */
  lemma EditReplaces(t: Table, id: nat, owned: set<nat>, text: string, decode: Decoder, now: int)
    ensures var after := Edited(t, id, owned, text, decode, now);
      if id in t.rows && !t.rows[id].isDeleted && t.rows[id].addressId in owned && decode(text).Some? then
        && after.nextId == t.nextId && after.rows.Keys == t.rows.Keys
        && after.rows[id] == t.rows[id].(text := text, history := after.rows[id].history)
        && after.rows[id].history == (if t.rows[id].history != [] && t.rows[id].history[0].body == decode(text).value
                                      then t.rows[id].history else [Version(now, decode(text).value)] + t.rows[id].history)
        && forall x :: x in t.rows && x != id ==> after.rows[x] == t.rows[x]
      else after == t
  {
  }

  /** The answer to an edit request: an error also if the edit was stored but its discussion is gone. */
  lemma EditAnswers(t: Table, id: nat, owned: set<nat>, text: string, discussion: Discussion, decode: Decoder)
    ensures var outcome := EditOutcome(t, id, owned, text, discussion, decode);
      var own := id in t.rows && !t.rows[id].isDeleted && t.rows[id].addressId in owned;
      && (outcome.Success? <==> own && decode(text).Some? && discussion != Missing)
      && (outcome == Failure(NoProposal) <==> own && decode(text).Some? && discussion == Missing)
      && (outcome == Failure(MalformedText) <==> decode(text).None?)
      && (outcome == Failure(NotOwned) <==> !own && decode(text).Some?)
  {
  }

  /** A delete by the owner hides the comment, keeping all else about it; any other changes nothing. */
  lemma DeleteHides(t: Table, id: nat, owned: set<nat>)
    ensures var after := Deleted(t, id, owned);
      if id in t.rows && !t.rows[id].isDeleted && t.rows[id].addressId in owned then
        && !IsVisible(after.rows, id)
        && after.nextId == t.nextId && after.rows.Keys == t.rows.Keys
        && after.rows[id] == t.rows[id].(isDeleted := true)
        && forall x :: x in t.rows && x != id ==> after.rows[x] == t.rows[x]
      else after == t
  {
  }

  // ----- which comments are hidden

  /** A request that hides comment `id`: an accepted delete, or its creation on a discussion that is not open. */
  ghost predicate Hides(t: Table, decode: Decoder, e: Event, id: nat)
  {
    || (e.request.Delete? && e.request.id == id && IsVisible(t.rows, id) && t.rows[id].addressId in e.request.owned)
    || (e.request.Create? && t.nextId == id && IsWritten(t.rows, e.request.r, decode) && e.request.r.discussion != Open)
  }

  ghost predicate WasHidden(t: Table, decode: Decoder, events: seq<Event>, id: nat)
  {
    exists k :: 0 <= k < |events| && Hides(Run(t, decode, events[..k]), decode, events[k], id)
  }

  lemma HiddenByStep(t: Table, decode: Decoder, e: Event, id: nat)
    requires IsGood(t, decode)
    ensures var after := Step(t, decode, e);
      && (id in t.rows ==> id in after.rows && (after.rows[id].isDeleted <==> t.rows[id].isDeleted || Hides(t, decode, e, id)))
      && (id !in t.rows && id in after.rows ==> (after.rows[id].isDeleted <==> Hides(t, decode, e, id)))
      && (id !in t.rows && id !in after.rows ==> !Hides(t, decode, e, id))
  {
    hide IsForest, KeepsHistories, IsWritten, Created, Edited, Deleted;
    match e.request
    case Create(r) => CreateWrites(t, r, decode, e.now);
    case Edit(x, owned, text) => EditReplaces(t, x, owned, text, decode, e.now);
    case Delete(x, owned) => DeleteHides(t, x, owned);
  }

  lemma HiddenSnoc(t: Table, decode: Decoder, events: seq<Event>, e: Event, id: nat)
    ensures WasHidden(t, decode, events + [e], id) <==>
            WasHidden(t, decode, events, id) || Hides(Run(t, decode, events), decode, e, id)
  {
    hide Hides, Run;
    var all, n := events + [e], |events|;
    assert all[..n] == events && all[n] == e;
    assert forall k :: 0 <= k < n ==> all[..k] == events[..k] && all[k] == events[k];
  }

  /**
   In every run, a comment that was not there or not hidden before is hidden exactly if its
   owner deleted it or its discussion was missing or read-only when it was written.
   */
  lemma {:induction false} HiddenIff(t: Table, decode: Decoder, events: seq<Event>, id: nat)
    requires IsGood(t, decode) && (id in t.rows ==> !t.rows[id].isDeleted)
    ensures var rows := Run(t, decode, events).rows;
      && (id in rows ==> (rows[id].isDeleted <==> WasHidden(t, decode, events, id)))
      && (id !in rows ==> !WasHidden(t, decode, events, id))
  {
    if events != [] {
      hide IsGood, Step, Hides, WasHidden;
      var init, e := events[..|events| - 1], events[|events| - 1];
      assert events == init + [e];
      HiddenIff(t, decode, init, id);
      RunKeepsGood(t, decode, init);
      HiddenByStep(Run(t, decode, init), decode, e, id);
      HiddenSnoc(t, decode, init, e, id);
    }
  }

  // ----- histories over runs

  /** An edit that is answered with an error changes nothing, unless the error is the missing discussion. */
  lemma StoredEdits(t: Table, id: nat, owned: set<nat>, text: string, discussion: Discussion, decode: Decoder, now: int)
    ensures var outcome := EditOutcome(t, id, owned, text, discussion, decode);
      && (IsAccepted(t.rows, id, owned, text, decode) <==> outcome == Success(()) || outcome == Failure(NoProposal))
      && (outcome.Failure? && outcome.error != NoProposal ==> Edited(t, id, owned, text, decode, now) == t)
      && (outcome == Failure(NoProposal) ==>
            var after := Edited(t, id, owned, text, decode, now);
            id in after.rows && after.rows[id].text == text)
  {
  }

  /** The version with which a request of a run creates comment `id`. */
  function Birth(t: Table, decode: Decoder, events: seq<Event>, id: nat): Option<Version>
  {
    if events == [] then None else
    var init, e := events[..|events| - 1], events[|events| - 1];
    if Births(Run(t, decode, init), decode, e, id) then Some(BirthBy(e, decode))
    else Birth(t, decode, init, id)
  }

  predicate Births(t: Table, decode: Decoder, e: Event, id: nat)
  {
    e.request.Create? && Refusal(t.rows, e.request.r, decode).None? && t.nextId == id
  }

  /** The edits of comment `id` that are stored during a run: not of a deleted or someone else's comment. */
  function StoredVersions(t: Table, decode: Decoder, events: seq<Event>, id: nat): seq<Version>
  {
    if events == [] then [] else
    var init, e := events[..|events| - 1], events[|events| - 1];
    StoredVersions(t, decode, init, id) +
    if Stores(Run(t, decode, init), decode, e, id) then [EditBy(e, decode)] else []
  }

  predicate Stores(t: Table, decode: Decoder, e: Event, id: nat)
  {
    e.request.Edit? && e.request.id == id && IsAccepted(t.rows, id, e.request.owned, e.request.text, decode)
  }

  /** What one request does to the text and the history of a comment. */
  lemma StepOnComment(t: Table, decode: Decoder, e: Event, id: nat)
    requires IsGood(t, decode)
    ensures var after := Step(t, decode, e).rows;
      if Births(t, decode, e, id) then
        && id !in t.rows && id in after && decode(e.request.r.text).Some?
        && after[id].text == e.request.r.text && after[id].history == [Version(e.now, decode(e.request.r.text).value)]
      else if Stores(t, decode, e, id) then
        && id in t.rows && id in after && decode(e.request.text).Some?
        && after[id].text == e.request.text
        && after[id].history == Recorded(t.rows[id].history, e.now, decode(e.request.text).value)
      else
        && (id in after <==> id in t.rows)
        && (id in after ==> after[id].text == t.rows[id].text && after[id].history == t.rows[id].history)
  {
    hide IsForest, KeepsHistories, IsBlankText, Recorded;
  }

  ghost predicate IsHistoryOf(rows: Rows, id: nat, decode: Decoder, birth: Option<Version>, edits: seq<Version>)
  {
    if id in rows then
      && birth.Some?
      && rows[id].history == HistoryOf(birth.value, edits)
      && decode(rows[id].text) == Some(CurrentBody(birth.value, edits))
    else birth.None? && edits == []
  }

  function BirthBy(e: Event, decode: Decoder): Version
    requires e.request.Create?
  {
    Version(e.now, decode(e.request.r.text).GetOr(""))
  }

  function EditBy(e: Event, decode: Decoder): Version
    requires e.request.Edit?
  {
    Version(e.now, decode(e.request.text).GetOr(""))
  }

  lemma StepKeepsHistory(t: Table, decode: Decoder, e: Event, id: nat, birth: Option<Version>, edits: seq<Version>)
    requires IsGood(t, decode) && IsHistoryOf(t.rows, id, decode, birth, edits)
    ensures IsHistoryOf(Step(t, decode, e).rows, id, decode,
                        if Births(t, decode, e, id) then Some(BirthBy(e, decode)) else birth,
                        edits + if Stores(t, decode, e, id) then [EditBy(e, decode)] else [])
  {
    StepOnComment(t, decode, e, id);
    assert Stores(t, decode, e, id) ==> !Births(t, decode, e, id) && id in t.rows;
    hide IsGood, Step, HistoryOf, CurrentBody, Recorded, Births, Stores;
    if Births(t, decode, e, id) {
      NoEdits(BirthBy(e, decode));
    } else if Stores(t, decode, e, id) {
      HistorySnoc(birth.value, edits, EditBy(e, decode));
    } else {
      assert edits + [] == edits;
    }
  }

  lemma {:induction false} RunKeepsHistories(t: Table, decode: Decoder, events: seq<Event>, id: nat)
    requires IsGood(t, decode) && id !in t.rows
    ensures IsHistoryOf(Run(t, decode, events).rows, id, decode, Birth(t, decode, events, id), StoredVersions(t, decode, events, id))
  {
    if events != [] {
      hide IsGood, Births, Stores, Step, IsHistoryOf;
      var init, e := events[..|events| - 1], events[|events| - 1];
      RunKeepsHistories(t, decode, init, id);
      RunKeepsGood(t, decode, init);
      StepKeepsHistory(Run(t, decode, init), decode, e, id, Birth(t, decode, init, id), StoredVersions(t, decode, init, id));
    }
  }

  /**
   The history of a comment that a run creates is exactly the stored changes of its text,
   newest first, and its first version; it is dated by the last stored change. Refused
   edits, and edits of others or after deletion, leave no trace.
   */
  lemma CommentHistory(t: Table, decode: Decoder, events: seq<Event>, id: nat)
    requires IsGood(t, decode) && id !in t.rows && id in Run(t, decode, events).rows
    ensures var comment := Run(t, decode, events).rows[id];
      var birth, edits := Birth(t, decode, events, id), StoredVersions(t, decode, events, id);
      && birth.Some? && decode(comment.text) == Some(CurrentBody(birth.value, edits))
      && comment.history == Changes(birth.value, edits) + [birth.value]
      && GetLastEdited(comment.history) == LastChange(birth.value, edits)
  {
    hide IsGood, Run, Birth, StoredVersions;
    RunKeepsHistories(t, decode, events, id);
    var birth, edits := Birth(t, decode, events, id).value, StoredVersions(t, decode, events, id);
    RunIsWellKept(birth, edits);
    LastEditedIsLastChange(birth, edits);
  }

  // ----- one listing of each reply

  /** A reply is listed exactly once in all lists together: once by its parent, never by another row. */
  lemma ReplyListedOnce(rows: Rows, id: nat)
    requires IsForest(rows) && id in rows && rows[id].parentId.Some?
    ensures rows[id].parentId.value in rows && multiset(rows[rows[id].parentId.value].childComments)[id] == 1
    ensures forall p :: p in rows && Some(p) != rows[id].parentId ==> id !in rows[p].childComments
  {
    var p := rows[id].parentId.value;
    assert IsChildOf(rows, id, p) && ListsOwnChildren(rows, p);
    OccursOnce(rows[p].childComments, id);
    forall q | q in rows && q != p ensures id !in rows[q].childComments {
      assert ListsOwnChildren(rows, q);
    }
  }

  lemma {:induction false} OccursOnce(ids: seq<nat>, id: nat)
    requires forall i, j :: 0 <= i < j < |ids| ==> ids[i] != ids[j]
    ensures multiset(ids)[id] == if id in ids then 1 else 0
  {
    if ids != [] {
      var n := |ids| - 1;
      assert ids == ids[..n] + [ids[n]];
      OccursOnce(ids[..n], id);
    }
  }

  // ----- walking the forest

  /** Following parents from `x` leads to `a`. The walk ends because ids decrease. */
  ghost predicate IsAncestorOrSelf(rows: Rows, a: nat, x: nat)
    requires IsForest(rows) && x in rows
    decreases x
  {
    a == x || (rows[x].parentId.Some? && IsChildOf(rows, x, rows[x].parentId.value) && IsAncestorOrSelf(rows, a, rows[x].parentId.value))
  }

  /** All children are newer than their parent and below the next id. */
  ghost predicate AreChildren(rows: Rows, p: nat, ids: seq<nat>, nextId: nat)
  {
    forall i :: 0 <= i < |ids| ==> ids[i] in rows && p < ids[i] < nextId && rows[ids[i]].parentId == Some(p)
  }

  lemma ChildListIsChildren(rows: Rows, p: nat, nextId: nat)
    requires IsForest(rows) && p in rows && forall id :: id in rows ==> id < nextId
    ensures AreChildren(rows, p, rows[p].childComments, nextId)
  {
  }

  /** A comment followed by everything below it, in display order. */
  ghost function Subtree(rows: Rows, id: nat, nextId: nat): seq<nat>
    requires IsForest(rows) && id in rows && forall x :: x in rows ==> x < nextId
    decreases nextId - id, 0
  {
    ChildListIsChildren(rows, id, nextId);
    [id] + Subtrees(rows, id, rows[id].childComments, nextId)
  }

  ghost function Subtrees(rows: Rows, p: nat, ids: seq<nat>, nextId: nat): seq<nat>
    requires IsForest(rows) && AreChildren(rows, p, ids, nextId) && p < nextId && forall x :: x in rows ==> x < nextId
    decreases nextId - p - 1, 1, |ids|
  {
    if ids == [] then []
    else Subtrees(rows, p, ids[..|ids| - 1], nextId) + Subtree(rows, ids[|ids| - 1], nextId)
  }

  lemma {:induction false} AncestorIsNotNewer(rows: Rows, a: nat, x: nat)
    requires IsForest(rows) && x in rows && IsAncestorOrSelf(rows, a, x)
    ensures a <= x && a in rows
    decreases x
  {
    if a != x {
      AncestorIsNotNewer(rows, a, rows[x].parentId.value);
    }
  }

  /** Below a proper ancestor there is exactly one child on the way to `x`. */
  lemma {:induction false} ChildOnTheWay(rows: Rows, a: nat, x: nat) returns (c: nat)
    requires IsForest(rows) && x in rows && a != x && IsAncestorOrSelf(rows, a, x)
    ensures c in rows && rows[c].parentId == Some(a) && IsAncestorOrSelf(rows, c, x)
    decreases x
  {
    var p := rows[x].parentId.value;
    if p == a {
      c := x;
    } else {
      c := ChildOnTheWay(rows, a, p);
    }
  }

  lemma {:induction false} OnlyOneChildOnTheWay(rows: Rows, a: nat, x: nat, c: nat, c': nat)
    requires IsForest(rows) && x in rows && c in rows && c' in rows
    requires rows[c].parentId == Some(a) && rows[c'].parentId == Some(a)
    requires IsAncestorOrSelf(rows, c, x) && IsAncestorOrSelf(rows, c', x)
    ensures c == c'
    decreases x
  {
    assert IsChildOf(rows, c, a) && IsChildOf(rows, c', a);
    if c == x || c' == x {
      if c != c' {
        AncestorIsNotNewer(rows, if c == x then c' else c, a);
      }
    } else {
      OnlyOneChildOnTheWay(rows, a, rows[x].parentId.value, c, c');
    }
  }

  lemma {:induction false} ParentOfAncestor(rows: Rows, c: nat, x: nat)
    requires IsForest(rows) && x in rows && IsAncestorOrSelf(rows, c, x) && c in rows && rows[c].parentId.Some?
    ensures IsAncestorOrSelf(rows, rows[c].parentId.value, x)
    decreases x
  {
    if c != x {
      ParentOfAncestor(rows, c, rows[x].parentId.value);
    } else {
      assert IsChildOf(rows, c, rows[c].parentId.value);
    }
  }

  /** The children among `ids` that lead to `x`: at most one of different ids. */
  ghost predicate LeadsTo(rows: Rows, ids: seq<nat>, x: nat)
    requires IsForest(rows) && x in rows
  {
    exists i :: 0 <= i < |ids| && IsAncestorOrSelf(rows, ids[i], x)
  }

  lemma {:induction false} SubtreeCounts(rows: Rows, id: nat, nextId: nat, x: nat)
    requires IsForest(rows) && id in rows && x in rows && forall y :: y in rows ==> y < nextId
    ensures multiset(Subtree(rows, id, nextId))[x] == if IsAncestorOrSelf(rows, id, x) then 1 else 0
    decreases nextId - id, 0
  {
    hide IsForest;
    ChildListIsChildren(rows, id, nextId);
    var ids := rows[id].childComments;
    ChildrenAreDistinct(rows, id);
    SubtreesCount(rows, id, ids, nextId, x);
    var below := Subtrees(rows, id, ids, nextId);
    assert multiset([id] + below) == multiset{id} + multiset(below);
    if id == x {
      forall i | 0 <= i < |ids| ensures !IsAncestorOrSelf(rows, ids[i], x) {
        if IsAncestorOrSelf(rows, ids[i], x) {
          AncestorIsNotNewer(rows, ids[i], x);
        }
      }
    } else if IsAncestorOrSelf(rows, id, x) {
      var c := ChildOnTheWay(rows, id, x);
      ChildIsListed(rows, c);
      var i :| 0 <= i < |ids| && ids[i] == c;
    } else {
      forall i | 0 <= i < |ids| ensures !IsAncestorOrSelf(rows, ids[i], x) {
        if IsAncestorOrSelf(rows, ids[i], x) {
          ParentOfAncestor(rows, ids[i], x);
        }
      }
    }
  }

  lemma ChildIsListed(rows: Rows, c: nat)
    requires IsForest(rows) && c in rows && rows[c].parentId.Some?
    ensures IsChildOf(rows, c, rows[c].parentId.value)
  {
  }

  lemma ChildrenAreDistinct(rows: Rows, p: nat)
    requires IsForest(rows) && p in rows
    ensures forall i, j :: 0 <= i < j < |rows[p].childComments| ==> rows[p].childComments[i] != rows[p].childComments[j]
  {
  }

  lemma {:induction false} SubtreesCount(rows: Rows, p: nat, ids: seq<nat>, nextId: nat, x: nat)
    requires IsForest(rows) && AreChildren(rows, p, ids, nextId) && p < nextId && x in rows
    requires forall y :: y in rows ==> y < nextId
    requires forall i, j :: 0 <= i < j < |ids| ==> ids[i] != ids[j]
    ensures multiset(Subtrees(rows, p, ids, nextId))[x] == if LeadsTo(rows, ids, x) then 1 else 0
    decreases nextId - p - 1, 1, |ids|
  {
    if ids == [] {
      assert Subtrees(rows, p, ids, nextId) == [] && !LeadsTo(rows, ids, x);
    } else {
      hide IsForest, IsAncestorOrSelf, LeadsTo, Subtree;
      var init, c := ids[..|ids| - 1], ids[|ids| - 1];
      assert ids == init + [c];
      SubtreesCount(rows, p, init, nextId, x);
      SubtreeCounts(rows, c, nextId, x);
      LeadsToSnoc(rows, init, c, x);
      NotBoth(rows, p, init, c, x);
      SumOfCounts(Subtrees(rows, p, init, nextId), Subtree(rows, c, nextId), x);
    }
  }

  lemma SumOfCounts(a: seq<nat>, b: seq<nat>, x: nat)
    ensures multiset(a + b)[x] == multiset(a)[x] + multiset(b)[x]
  {
  }

  lemma LeadsToSnoc(rows: Rows, ids: seq<nat>, c: nat, x: nat)
    requires IsForest(rows) && x in rows
    ensures LeadsTo(rows, ids + [c], x) <==> LeadsTo(rows, ids, x) || IsAncestorOrSelf(rows, c, x)
  {
    hide IsForest, IsAncestorOrSelf;
    var all := ids + [c];
    if LeadsTo(rows, ids, x) {
      var i :| 0 <= i < |ids| && IsAncestorOrSelf(rows, ids[i], x);
      assert all[i] == ids[i];
    }
    if IsAncestorOrSelf(rows, c, x) {
      assert all[|ids|] == c;
    }
  }

  lemma NotBoth(rows: Rows, p: nat, ids: seq<nat>, c: nat, x: nat)
    requires IsForest(rows) && x in rows && c in rows && rows[c].parentId == Some(p)
    requires forall i :: 0 <= i < |ids| ==> ids[i] in rows && rows[ids[i]].parentId == Some(p) && ids[i] != c
    ensures !(LeadsTo(rows, ids, x) && IsAncestorOrSelf(rows, c, x))
  {
    hide IsForest, IsAncestorOrSelf;
    forall i | 0 <= i < |ids| && IsAncestorOrSelf(rows, c, x) ensures !IsAncestorOrSelf(rows, ids[i], x) {
      if IsAncestorOrSelf(rows, ids[i], x) {
        OnlyOneChildOnTheWay(rows, p, x, ids[i], c);
      }
    }
  }

  /** The tree of a top-level comment. */
  ghost function TreeAt(rows: Rows, id: nat, nextId: nat): seq<nat>
    requires IsForest(rows) && forall x :: x in rows ==> x < nextId
  {
    if id in rows && rows[id].parentId == None then Subtree(rows, id, nextId) else []
  }

  /** All trees, one after the other. */
  ghost function Walk(rows: Rows, n: nat, nextId: nat): seq<nat>
    requires IsForest(rows) && forall x :: x in rows ==> x < nextId
  {
    if n == 0 then [] else Walk(rows, n - 1, nextId) + TreeAt(rows, n - 1, nextId)
  }

  /** The top-level comment a comment hangs under. */
  ghost function TopOf(rows: Rows, x: nat): (a: nat)
    requires IsForest(rows) && x in rows
    ensures a <= x && a in rows && rows[a].parentId == None && IsAncestorOrSelf(rows, a, x)
    decreases x
  {
    if rows[x].parentId == None then x
    else ChildIsListed(rows, x); TopOf(rows, rows[x].parentId.value)
  }

  lemma {:induction false} TopIsUnique(rows: Rows, a: nat, x: nat)
    requires IsForest(rows) && x in rows && a in rows && rows[a].parentId == None && IsAncestorOrSelf(rows, a, x)
    ensures a == TopOf(rows, x)
    decreases x
  {
    if a != x {
      TopIsUnique(rows, a, rows[x].parentId.value);
    }
  }

  lemma TreeCounts(rows: Rows, id: nat, nextId: nat, x: nat)
    requires IsForest(rows) && x in rows && forall y :: y in rows ==> y < nextId
    ensures multiset(TreeAt(rows, id, nextId))[x] == if TopOf(rows, x) == id then 1 else 0
  {
    hide IsForest, IsAncestorOrSelf, Subtree, TopOf;
    if id in rows && rows[id].parentId == None {
      SubtreeCounts(rows, id, nextId, x);
      if IsAncestorOrSelf(rows, id, x) {
        TopIsUnique(rows, id, x);
      }
    }
  }

  lemma {:induction false} WalkCounts(rows: Rows, n: nat, nextId: nat, x: nat)
    requires IsForest(rows) && x in rows && forall y :: y in rows ==> y < nextId
    ensures multiset(Walk(rows, n, nextId))[x] == if TopOf(rows, x) < n then 1 else 0
  {
    hide IsForest, TreeAt, TopOf;
    if n > 0 {
      WalkCounts(rows, n - 1, nextId, x);
      TreeCounts(rows, n - 1, nextId, x);
      SumOfCounts(Walk(rows, n - 1, nextId), TreeAt(rows, n - 1, nextId), x);
    }
  }

  /**
   Walking the forest from the top-level comments through the child lists meets every
   comment of the table, deleted or not, exactly once.
   */
  lemma WalkMeetsEveryCommentOnce(t: Table, decode: Decoder, x: nat)
    requires IsGood(t, decode) && x in t.rows
    ensures multiset(Walk(t.rows, t.nextId, t.nextId))[x] == 1
  {
    WalkCounts(t.rows, t.nextId, t.nextId, x);
  }
}
