/**
 The version history of a post, newest version first. A version is stored as JSON text;
 the round trip through that text is taken to be lossless.
 */
module VersionHistory {
  import opened Wrappers

  datatype Version = Version(timestamp: int, body: string)

  /** Percent-decoding, which fails on malformed text. */
  type Decoder = string -> Option<string>

  /** An edit records a version when its body differs from the latest recorded one. */
  function Recorded(history: seq<Version>, timestamp: int, body: string): seq<Version>
  {
    if history != [] && history[0].body == body then history else [Version(timestamp, body)] + history
  }

  function GetLastEdited(history: seq<Version>): Option<int>
  {
    if |history| > 1 then Some(history[0].timestamp) else None
  }

  /** The head is the current body and no two neighbours have the same body. */
  ghost predicate IsWellKept(history: seq<Version>, body: string)
  {
    && history != [] && history[0].body == body
    && (forall i :: 0 <= i < |history| - 1 ==> history[i].body != history[i + 1].body)
  }

  ghost predicate IsSuffix(older: seq<Version>, newer: seq<Version>)
  {
    |older| <= |newer| && newer[|newer| - |older|..] == older
  }

  lemma RecordedIsWellKept(history: seq<Version>, before: string, timestamp: int, body: string)
    requires IsWellKept(history, before)
    ensures IsWellKept(Recorded(history, timestamp, body), body)
    ensures IsSuffix(history, Recorded(history, timestamp, body))
  {
  }

  lemma SuffixTransitive(a: seq<Version>, b: seq<Version>, c: seq<Version>)
    requires IsSuffix(a, b) && IsSuffix(b, c)
    ensures IsSuffix(a, c)
  {
  }

  // ----- the history of a run

  /** The history after the first version and any number of edits. */
  function HistoryOf(first: Version, edits: seq<Version>): seq<Version>
  {
    if edits == [] then [first]
    else Recorded(HistoryOf(first, edits[..|edits| - 1]), edits[|edits| - 1].timestamp, edits[|edits| - 1].body)
  }

  /** The body a post has after some edits. */
  function CurrentBody(first: Version, edits: seq<Version>): string
  {
    if edits == [] then first.body else edits[|edits| - 1].body
  }

  lemma NoEdits(first: Version)
    ensures HistoryOf(first, []) == [first] && CurrentBody(first, []) == first.body
  {
  }

  lemma HistorySnoc(first: Version, edits: seq<Version>, e: Version)
    ensures HistoryOf(first, edits + [e]) == Recorded(HistoryOf(first, edits), e.timestamp, e.body)
    ensures CurrentBody(first, edits + [e]) == e.body
  {
  }

  /** Whether the last edit changed the body. */
  predicate ChangesBody(first: Version, edits: seq<Version>)
    requires edits != []
  {
    CurrentBody(first, edits) != CurrentBody(first, edits[..|edits| - 1])
  }

  /** The time of the last edit that changed the body, without reference to any history. */
  function LastChange(first: Version, edits: seq<Version>): Option<int>
  {
    if edits == [] then None
    else if ChangesBody(first, edits) then Some(edits[|edits| - 1].timestamp)
    else LastChange(first, edits[..|edits| - 1])
  }

  /** The versions that changed the body, newest first. */
  function Changes(first: Version, edits: seq<Version>): seq<Version>
  {
    if edits == [] then []
    else (if ChangesBody(first, edits) then [edits[|edits| - 1]] else []) + Changes(first, edits[..|edits| - 1])
  }

  /**
   Over every run of a creation followed by edits the history is well kept: not empty, its
   head is the current body, neighbours differ, every earlier history is a suffix. It
   consists of exactly the changes, newest first, and the first version.
   */
  lemma {:induction false} RunIsWellKept(first: Version, edits: seq<Version>)
    ensures IsWellKept(HistoryOf(first, edits), CurrentBody(first, edits))
    ensures HistoryOf(first, edits) == Changes(first, edits) + [first]
  {
    if edits != [] {
      var init, e := edits[..|edits| - 1], edits[|edits| - 1];
      RunIsWellKept(first, init);
      RecordedIsWellKept(HistoryOf(first, init), CurrentBody(first, init), e.timestamp, e.body);
      assert [e] + (Changes(first, init) + [first]) == ([e] + Changes(first, init)) + [first];
    }
  }

  /** The history after more edits extends the history after fewer. */
  lemma {:induction false} HistoriesAreSuffixes(first: Version, edits: seq<Version>, n: nat)
    requires n <= |edits|
    ensures IsSuffix(HistoryOf(first, edits[..n]), HistoryOf(first, edits))
  {
    if n == |edits| {
      assert edits[..n] == edits;
    } else {
      var init, e := edits[..|edits| - 1], edits[|edits| - 1];
      assert init[..n] == edits[..n];
      HistoriesAreSuffixes(first, init, n);
      RunIsWellKept(first, init);
      RecordedIsWellKept(HistoryOf(first, init), CurrentBody(first, init), e.timestamp, e.body);
      SuffixTransitive(HistoryOf(first, edits[..n]), HistoryOf(first, init), HistoryOf(first, edits));
    }
  }

  /**
   A post counts as edited exactly when some edit changed its body, and then the reported
   time is that of the last such edit.
   */
  lemma {:induction false} LastEditedIsLastChange(first: Version, edits: seq<Version>)
    ensures GetLastEdited(HistoryOf(first, edits)) == LastChange(first, edits)
  {
    if edits != [] {
      var init := edits[..|edits| - 1];
      LastEditedIsLastChange(first, init);
      RunIsWellKept(first, init);
    }
  }
}
