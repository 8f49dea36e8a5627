/**
 The migration from (parent_id, parent_type) to (root_id, parent_id) on comments, and back.
 A NULL column reads as the empty text once a row has been printed and split again.
 */
module CommentIdMigration {
  import opened Wrappers

  datatype Row = Row(id: string, parentId: Option<string>, parentType: Option<string>, rootId: Option<string>)

  const COMMENT := "comment"
  const PROPOSAL := "proposal"

  function Parsed(column: Option<string>): string
  {
    column.GetOr("")
  }

  /** Ids are a primary key and never empty. */
  ghost predicate HasKeys(rows: seq<Row>)
  {
    && (forall i :: 0 <= i < |rows| ==> rows[i].id != "")
    && (forall i, j :: 0 <= i < j < |rows| ==> rows[i].id != rows[j].id)
  }

  /** The first row with an id. */
  function Find(rows: seq<Row>, id: string): (r: Option<Row>)
    ensures r.Some? ==> r.value in rows && r.value.id == id
    ensures r.None? ==> forall x :: x in rows ==> x.id != id
  {
    if rows == [] then None
    else if rows[0].id == id then Some(rows[0])
    else Find(rows[1..], id)
  }

  lemma {:induction false} FindIsRow(rows: seq<Row>, r: Row)
    requires HasKeys(rows) && r in rows
    ensures Find(rows, r.id) == Some(r)
  {
  }

  // ----- up

  predicate IsReply(r: Row)
  {
    Parsed(r.parentType) == COMMENT
  }

  /** The root and parent computed for a comment; absent when looking up its parent fails. */
  function NewIds(rows: seq<Row>, r: Row): Option<(string, string)>
  {
    if IsReply(r) then
      var parent := Find(rows, Parsed(r.parentId));
      if parent.Some? then Some((Parsed(parent.value.parentId), Parsed(r.parentId))) else None
    else
      Some((Parsed(r.parentId), ""))
  }

  function UpRow(r: Row, ids: (string, string)): Row
  {
    Row(r.id, if ids.1 == "" then None else Some(ids.1), None, Some(ids.0))
  }

  predicate ParentsExist(rows: seq<Row>)
  {
    forall r :: r in rows ==> NewIds(rows, r).Some?
  }

  function Up(rows: seq<Row>): seq<Row>
    requires ParentsExist(rows)
  {
    seq(|rows|, i requires 0 <= i < |rows| => assert rows[i] in rows; UpRow(rows[i], NewIds(rows, rows[i]).value))
  }

  // ----- down

  /** What a comment hangs from: its parent, or else its root. */
  function HangsFrom(r: Row): string
  {
    if Parsed(r.parentId) == "" then Parsed(r.rootId) else Parsed(r.parentId)
  }

  function DownRow(r: Row): Row
  {
    Row(r.id, Some(HangsFrom(r)), Some(if Parsed(r.parentId) == "" then PROPOSAL else COMMENT), None)
  }

  function Down(rows: seq<Row>): seq<Row>
  {
    seq(|rows|, i requires 0 <= i < |rows| => DownRow(rows[i]))
  }

  class CommentTable {
    var rows: seq<Row>

    constructor (rows: seq<Row>)
      ensures this.rows == rows
    {
      this.rows := rows;
    }

    /** Fills the dictionary of new ids; fails on the first reply whose parent is missing. */
    method PopulateRootIds(comments: seq<Row>) returns (r: Option<map<string, (string, string)>>)
      requires HasKeys(comments)
      ensures r.Some? <==> ParentsExist(comments)
      ensures r.Some? ==> forall c :: c in comments ==> c.id in r.value && NewIds(comments, c) == Some(r.value[c.id])
    {
      hide NewIds;
      var updated: map<string, (string, string)> := map[];
      for i := 0 to |comments|
        invariant forall j :: 0 <= j < i ==> comments[j].id in updated && NewIds(comments, comments[j]) == Some(updated[comments[j].id])
      {
        var ids := NewIds(comments, comments[i]);
        if ids.None? {
          assert comments[i] in comments;
          return None;
        }
        updated := updated[comments[i].id := ids.value];
      }
      return Some(updated);
    }

    /** Either every row is rewritten or, when a parent is missing, none. */
    method MigrateUp() returns (ok: bool)
      requires HasKeys(rows)
      modifies this
      ensures ok <==> ParentsExist(old(rows))
      ensures rows == if ok then Up(old(rows)) else old(rows)
    {
      hide NewIds, UpRow;
      var comments := rows;
      var updatedComments := PopulateRootIds(comments);
      if updatedComments.None? {
        return false;
      }
      for i := 0 to |comments|
        invariant |rows| == |comments|
        invariant forall j :: i <= j < |comments| ==> rows[j] == comments[j]
        invariant forall j :: 0 <= j < i ==> rows[j] == Up(comments)[j]
      {
        assert comments[i] in comments;
        rows := rows[i := UpRow(rows[i], updatedComments.value[comments[i].id])];
      }
      assert rows == Up(comments);
      return true;
    }

    method MigrateDown()
      modifies this
      ensures rows == Down(old(rows))
    {
      ghost var before := rows;
      for i := 0 to |rows|
        invariant |rows| == |before|
        invariant forall j :: i <= j < |rows| ==> rows[j] == before[j]
        invariant forall j :: 0 <= j < i ==> rows[j] == DownRow(before[j])
      {
        var parentId, rootId := Parsed(rows[i].parentId), Parsed(rows[i].rootId);
        var parentType := if parentId != "" then COMMENT else PROPOSAL;
        if parentId == "" {
          parentId := rootId;
        }
        rows := rows[i := Row(rows[i].id, Some(parentId), Some(parentType), None)];
      }
    }
  }

  // ----- down after up

  /** What the round trip can restore: replies, and top-level comments of type "proposal" with a parent id. */
  predicate IsPlainOldRow(r: Row)
  {
    r.parentType == Some(COMMENT) || (r.parentType == Some(PROPOSAL) && r.parentId.Some?)
  }

  lemma DownAfterUpRow(rows: seq<Row>, r: Row)
    requires HasKeys(rows) && r in rows && NewIds(rows, r).Some?
    ensures var back := DownRow(UpRow(r, NewIds(rows, r).value));
      && back.id == r.id && back.rootId == None
      && (back.parentId == r.parentId && back.parentType == r.parentType <==> IsPlainOldRow(r))
  {
  }

  /**
   Going up and down again restores every parent id and parent type exactly when the old
   rows use the two types the migration knows and every top-level comment names a parent.
   */
  lemma DownAfterUp(rows: seq<Row>)
    requires HasKeys(rows) && ParentsExist(rows)
    ensures |Down(Up(rows))| == |rows|
    ensures (forall i :: 0 <= i < |rows| ==>
              Down(Up(rows))[i].parentId == rows[i].parentId && Down(Up(rows))[i].parentType == rows[i].parentType)
            <==> (forall i :: 0 <= i < |rows| ==> IsPlainOldRow(rows[i]))
    ensures forall i :: 0 <= i < |rows| ==> Down(Up(rows))[i].id == rows[i].id && Down(Up(rows))[i].rootId == None
  {
    hide NewIds, UpRow, DownRow, IsPlainOldRow, HasKeys;
    forall i | 0 <= i < |rows|
      ensures Down(Up(rows))[i].parentId == rows[i].parentId && Down(Up(rows))[i].parentType == rows[i].parentType
              <==> IsPlainOldRow(rows[i])
      ensures Down(Up(rows))[i].id == rows[i].id && Down(Up(rows))[i].rootId == None
    {
      assert rows[i] in rows;
      DownAfterUpRow(rows, rows[i]);
    }
  }

  /** A comment on something else than a proposal is one afterwards. */
  lemma OtherTypeIsForgotten()
    ensures var rows := [Row("1", Some("7"), Some("entity"), None)];
      ParentsExist(rows) && Down(Up(rows)) == [Row("1", Some("7"), Some("proposal"), None)]
  {
    var r := Row("1", Some("7"), Some("entity"), None);
    assert "entity"[0] != COMMENT[0];
    assert NewIds([r], r) == Some(("7", ""));
    assert Up([r]) == [Row("1", None, None, Some("7"))];
  }

  // ----- up after down

  /**
   What the other round trip can restore: a comment with a root whose parent id is either
   absent or names a comment that hangs from that root.
   */
  predicate AgreesWithParent(rows: seq<Row>, r: Row)
  {
    && r.rootId.Some? && r.parentId != Some("") && r.parentType == None
    && (r.parentId.Some? ==>
          var parent := Find(rows, r.parentId.value);
          parent.Some? && HangsFrom(parent.value) == r.rootId.value)
  }

  lemma {:induction false} FindInDown(rows: seq<Row>, id: string)
    ensures Find(Down(rows), id) == if Find(rows, id).Some? then Some(DownRow(Find(rows, id).value)) else None
    decreases |rows|
  {
    if rows != [] {
      assert Down(rows)[1..] == Down(rows[1..]);
      FindInDown(rows[1..], id);
    }
  }

  lemma UpAfterDownRow(rows: seq<Row>, r: Row)
    requires HasKeys(rows) && r in rows
    ensures AgreesWithParent(rows, r) <==>
            NewIds(Down(rows), DownRow(r)).Some? && UpRow(DownRow(r), NewIds(Down(rows), DownRow(r)).value) == r
  {
    FindInDown(rows, Parsed(r.parentId));
  }

  /**
   Going down and up again succeeds and restores the table exactly when every reply agrees
   with its parent about the root.
   */
  lemma UpAfterDown(rows: seq<Row>)
    requires HasKeys(rows)
    ensures (forall r :: r in rows ==> AgreesWithParent(rows, r)) <==> ParentsExist(Down(rows)) && Up(Down(rows)) == rows
  {
    hide NewIds, UpRow, DownRow, AgreesWithParent, HasKeys;
    var down := Down(rows);
    forall i | 0 <= i < |rows|
      ensures AgreesWithParent(rows, rows[i]) <==> NewIds(down, down[i]).Some? && UpRow(down[i], NewIds(down, down[i]).value) == rows[i]
    {
      assert rows[i] in rows;
      UpAfterDownRow(rows, rows[i]);
    }
    if forall r :: r in rows ==> AgreesWithParent(rows, r) {
      forall r | r in down ensures NewIds(down, r).Some? {
        var i :| 0 <= i < |down| && down[i] == r;
        assert rows[i] in rows;
      }
      assert Up(down) == rows;
    }
    if ParentsExist(down) && Up(down) == rows {
      forall r | r in rows ensures AgreesWithParent(rows, r) {
        var i :| 0 <= i < |rows| && rows[i] == r;
        assert down[i] in down;
        assert Up(down)[i] == rows[i];
      }
    }
  }

  /** A reply to a reply, correctly filed under its discussion, comes back filed under a comment. */
  lemma NestedReplyIsNotRestored()
    ensures var top := Row("1", None, None, Some("discussion_7"));
      var reply := Row("2", Some("1"), None, Some("discussion_7"));
      var nested := Row("3", Some("2"), None, Some("discussion_7"));
      var rows := [top, reply, nested];
      && HasKeys(rows) && ParentsExist(Down(rows))
      && Up(Down(rows)) == [top, reply, nested.(rootId := Some("1"))]
  {
    var top := Row("1", None, None, Some("discussion_7"));
    var reply := Row("2", Some("1"), None, Some("discussion_7"));
    var nested := Row("3", Some("2"), None, Some("discussion_7"));
    var down := Down([top, reply, nested]);
    assert PROPOSAL[0] != COMMENT[0];
    assert down == [DownRow(top), DownRow(reply), DownRow(nested)];
    assert HasKeys(down);
    FindIsRow(down, DownRow(top));
    FindIsRow(down, DownRow(reply));
    hide Find, HasKeys;
    assert NewIds(down, down[0]) == Some(("discussion_7", ""));
    assert NewIds(down, down[1]) == Some(("discussion_7", "1"));
    assert NewIds(down, down[2]) == Some(("1", "2"));
  }

  /** In particular when every parent is top level with the same root. */
  lemma OneLevelTablesRoundTrip(rows: seq<Row>)
    requires HasKeys(rows)
    requires forall r :: r in rows ==> r.rootId.Some? && r.parentType == None && r.parentId != Some("")
    requires forall r :: r in rows && r.parentId.Some? ==>
      exists p :: p in rows && p.id == r.parentId.value && p.parentId == None && p.rootId == r.rootId
    ensures ParentsExist(Down(rows)) && Up(Down(rows)) == rows
  {
    hide ParentsExist, Up, Down, NewIds;
    forall r | r in rows ensures AgreesWithParent(rows, r) {
      if r.parentId.Some? {
        var p :| p in rows && p.id == r.parentId.value && p.parentId == None && p.rootId == r.rootId;
        FindIsRow(rows, p);
      }
    }
    UpAfterDown(rows);
  }

  // ----- the computed root

  /** Following parents from `r`, `n` steps lead to a top-level comment on `root`. */
  ghost predicate LeadsTo(rows: seq<Row>, r: Row, root: string, n: nat)
    decreases n
  {
    if n == 0 then !IsReply(r) && Parsed(r.parentId) == root
    else IsReply(r) && Find(rows, Parsed(r.parentId)).Some? && LeadsTo(rows, Find(rows, Parsed(r.parentId)).value, root, n - 1)
  }

  /**
   The root the migration computes is the end of the parent chain exactly for top-level
   comments and for replies to them: one level further down it is a comment's id, which is
   no root as long as roots and comments are named differently.
   */
  lemma ComputedRootIsTrueRoot(rows: seq<Row>, r: Row, root: string, n: nat)
    requires LeadsTo(rows, r, root, n) && Find(rows, root).None?
    ensures NewIds(rows, r).Some?
    ensures NewIds(rows, r).value.0 == root <==> n <= 1
  {
  }

  /** A reply to a reply: its true root is the discussion, but it is filed under a comment. */
  lemma NestedReplyIsMisfiled()
    ensures var top := Row("1", Some("discussion_7"), Some("proposal"), None);
      var reply := Row("2", Some("1"), Some("comment"), None);
      var nested := Row("3", Some("2"), Some("comment"), None);
      var rows := [top, reply, nested];
      && LeadsTo(rows, nested, "discussion_7", 2)
      && NewIds(rows, nested) == Some(("1", "2"))
  {
  }
}
