/** Creating and editing a thread. Percent-decoding is an input that may fail. */
module Threads {
  import opened Wrappers
  import opened VersionHistory
  import opened QuillText

  datatype ThreadData = ThreadData(body: string, title: string, stage: string, url: string, kind: string,
                                   history: seq<Version>)

  /** Empty `title` or `url` stand for fields left out of the request. */
  datatype EditRequest = EditRequest(kind: string, body: string, title: string, stage: string, url: string,
                                     hasAttachments: bool, mayEdit: bool, urlIsValid: bool)

  datatype Error = NoBodyOrAttachment | NotFound | InvalidLink | MalformedText

  /** The thread as saved, or the reason nothing is saved. */
  function Edited(t: ThreadData, r: EditRequest, decode: Decoder, now: int): Result<ThreadData, Error>
  {
    if r.kind == "forum" && IsBlankText(r.body) && !r.hasAttachments then Failure(NoBodyOrAttachment)
    else if !r.mayEdit then Failure(NotFound)
    else if decode(r.body).None? then Failure(MalformedText)
    else if r.url != "" && t.kind == "link" && !r.urlIsValid then Failure(InvalidLink)
    else
      Success(ThreadData(r.body, if r.title != "" then r.title else t.title, r.stage,
                         if r.url != "" && t.kind == "link" then r.url else t.url, t.kind,
                         Recorded(t.history, now, decode(r.body).value)))
  }

  /** A thread that has only its first version, which is its decoded body. */
  ghost predicate IsNew(t: ThreadData, first: Version, decode: Decoder)
  {
    t.history == [first] && decode(t.body) == Some(first.body)
  }

  class Thread {
    var body: string
    var title: string
    var stage: string
    var url: string
    const kind: string
    var versionHistory: seq<Version>

    function Model(): ThreadData
      reads this
    {
      ThreadData(body, title, stage, url, kind, versionHistory)
    }

    constructor (body: string, decode: Decoder, title: string, stage: string, url: string, kind: string, now: int)
      requires decode(body).Some?
      ensures Model() == ThreadData(body, title, stage, url, kind, [Version(now, decode(body).value)])
    {
      this.body, this.title, this.stage, this.url, this.kind := body, title, stage, url, kind;
      versionHistory := [Version(now, decode(body).value)];
    }

    /** A thread whose body cannot be decoded is not created. */
    static method CreateThread(body: string, decode: Decoder, title: string, stage: string, url: string, kind: string, now: int)
      returns (r: Result<Thread, Error>)
      ensures decode(body).None? ==> r == Failure(MalformedText)
      ensures decode(body).Some? ==>
        && r.Success? && fresh(r.value)
        && r.value.Model() == ThreadData(body, title, stage, url, kind, [Version(now, decode(body).value)])
        && IsNew(r.value.Model(), Version(now, decode(body).value), decode)
    {
      if decode(body).None? {
        return Failure(MalformedText);
      }
      var thread := new Thread(body, decode, title, stage, url, kind, now);
      return Success(thread);
    }

    method Edit(r: EditRequest, decode: Decoder, now: int) returns (result: Result<(), Error>)
      modifies this
      ensures var edited := Edited(old(Model()), r, decode, now);
        if edited.Success? then result == Success(()) && Model() == edited.value
        else result == Failure(edited.error) && Model() == old(Model())
    {
      if r.kind == "forum" && IsBlankText(r.body) && !r.hasAttachments {
        return Failure(NoBodyOrAttachment);
      }
      if !r.mayEdit {
        return Failure(NotFound);
      }
      var decoded := decode(r.body);
      if decoded.None? {
        return Failure(MalformedText);
      }
      // the changes are made on a copy that is only saved at the end
      var arr := versionHistory;
      if !(|arr| > 0 && arr[0].body == decoded.value) {
        arr := [Version(now, decoded.value)] + arr;
      }
      var newTitle := if r.title != "" then r.title else title;
      var newUrl := url;
      if r.url != "" && kind == "link" {
        if r.urlIsValid {
          newUrl := r.url;
        } else {
          return Failure(InvalidLink);
        }
      }
      versionHistory, body, stage, title, url := arr, r.body, r.stage, newTitle, newUrl;
      return Success(());
    }
  }

  // ----- runs

  datatype Event = Event(request: EditRequest, now: int)

  function Run(t: ThreadData, decode: Decoder, events: seq<Event>): ThreadData
  {
    if events == [] then t else
    var before := Run(t, decode, events[..|events| - 1]);
    var e := events[|events| - 1];
    match Edited(before, e.request, decode, e.now)
    case Success(after) => after
    case Failure(_) => before
  }

  /** The edits that were saved, as versions. Whether an edit is saved never depends on earlier edits. */
  function SavedEdits(t: ThreadData, decode: Decoder, events: seq<Event>): seq<Version>
  {
    if events == [] then [] else
    var e := events[|events| - 1];
    SavedEdits(t, decode, events[..|events| - 1]) +
    if Edited(t, e.request, decode, e.now).Success? then [Version(e.now, decode(e.request.body).value)] else []
  }

  /**
   In every run, whatever mixture of accepted and refused edits, the stored history is the
   history of the saved edits, and the stored text decodes to its head.
   */
  lemma {:induction false} RunKeepsHistory(t: ThreadData, first: Version, decode: Decoder, events: seq<Event>)
    requires IsNew(t, first, decode)
    ensures var after, edits := Run(t, decode, events), SavedEdits(t, decode, events);
      && after.kind == t.kind
      && after.history == HistoryOf(first, edits)
      && decode(after.body) == Some(CurrentBody(first, edits))
  {
    if events != [] {
      hide Edited, HistoryOf, CurrentBody;
      var init, e := events[..|events| - 1], events[|events| - 1];
      RunKeepsHistory(t, first, decode, init);
      var before, edits := Run(t, decode, init), SavedEdits(t, decode, init);
      SavingDependsOnKind(t, before, e.request, decode, e.now);
      if Edited(before, e.request, decode, e.now).Success? {
        HistorySnoc(first, edits, Version(e.now, decode(e.request.body).value));
      } else {
        assert edits + [] == edits;
      }
    } else {
      NoEdits(first);
    }
  }

  lemma SavingDependsOnKind(t: ThreadData, t': ThreadData, r: EditRequest, decode: Decoder, now: int)
    requires t.kind == t'.kind
    ensures Edited(t, r, decode, now).Success? <==> Edited(t', r, decode, now).Success?
    ensures Edited(t, r, decode, now).Success? ==> decode(r.body).Some?
    ensures Edited(t', r, decode, now).Success? ==>
      var after := Edited(t', r, decode, now).value;
      after.kind == t'.kind && after.body == r.body && after.history == Recorded(t'.history, now, decode(r.body).value)
  {
  }

  /** The history of a thread, and when it was last edited, after any run. */
  lemma ThreadHistory(t: ThreadData, first: Version, decode: Decoder, events: seq<Event>)
    requires IsNew(t, first, decode)
    ensures var after, edits := Run(t, decode, events), SavedEdits(t, decode, events);
      && decode(after.body).Some?
      && IsWellKept(after.history, decode(after.body).value)
      && after.history == Changes(first, edits) + [first]
      && GetLastEdited(after.history) == LastChange(first, edits)
  {
    hide Run, SavedEdits;
    RunKeepsHistory(t, first, decode, events);
    RunIsWellKept(first, SavedEdits(t, decode, events));
    LastEditedIsLastChange(first, SavedEdits(t, decode, events));
  }

  // ----- what an edit does

  /** Whether an edit is saved: by someone who may edit, with decodable text, a valid link, and a forum post not empty. */
  predicate IsSaved(kind: string, r: EditRequest, decode: Decoder)
  {
    && r.mayEdit && decode(r.body).Some?
    && (r.kind == "forum" && !r.hasAttachments ==> exists i :: 0 <= i < |r.body| && !IsSpace(r.body[i]))
    && (kind == "link" && r.url != "" ==> r.urlIsValid)
  }

  /** The fields of a thread after a saved edit, and the reason of a refused one. */
  lemma EditSaves(t: ThreadData, r: EditRequest, decode: Decoder, now: int)
    ensures var edited := Edited(t, r, decode, now);
      && (edited.Success? <==> IsSaved(t.kind, r, decode))
      && (edited.Success? ==>
            var after := edited.value;
            && after.body == r.body && after.stage == r.stage && after.kind == t.kind
            && (r.title != "" ==> after.title == r.title) && (r.title == "" ==> after.title == t.title)
            && (t.kind == "link" && r.url != "" ==> after.url == r.url)
            && (t.kind != "link" || r.url == "" ==> after.url == t.url))
      && (edited == Failure(InvalidLink) ==> t.kind == "link" && r.url != "" && !r.urlIsValid)
      && (edited == Failure(NotFound) ==> !r.mayEdit)
      && (edited == Failure(MalformedText) ==> r.mayEdit && decode(r.body).None?)
      && (edited == Failure(NoBodyOrAttachment) <==> r.kind == "forum" && !r.hasAttachments && IsBlankText(r.body))
  {
    hide IsSpace, Recorded;
  }

  /** The edits of a run that are saved. */
  function SavedEvents(kind: string, decode: Decoder, events: seq<Event>): seq<Event>
  {
    if events == [] then [] else
    var init, e := events[..|events| - 1], events[|events| - 1];
    SavedEvents(kind, decode, init) + if IsSaved(kind, e.request, decode) then [e] else []
  }

  /** Refused edits leave no trace: a run ends as if they had never been asked for. */
  lemma {:induction false} RefusedEditsLeaveNoTrace(t: ThreadData, decode: Decoder, events: seq<Event>)
    ensures Run(t, decode, events) == Run(t, decode, SavedEvents(t.kind, decode, events))
    ensures Run(t, decode, events).kind == t.kind
  {
    if events != [] {
      hide IsSaved, Edited;
      var init, e := events[..|events| - 1], events[|events| - 1];
      RefusedEditsLeaveNoTrace(t, decode, init);
      EditSaves(Run(t, decode, init), e.request, decode, e.now);
      var saved := SavedEvents(t.kind, decode, init);
      if IsSaved(t.kind, e.request, decode) {
        assert (saved + [e])[..|saved|] == saved;
      } else {
        assert saved + [] == saved;
      }
    }
  }

  /** The title and the link are those of the last saved edit that gave one, body and stage those of the last saved edit. */
  lemma {:induction false} LastSavedEditWins(t: ThreadData, decode: Decoder, events: seq<Event>)
    ensures var after, saved := Run(t, decode, events), SavedEvents(t.kind, decode, events);
      && (saved != [] ==> after.body == saved[|saved| - 1].request.body && after.stage == saved[|saved| - 1].request.stage)
      && after.title == LastGiven(t.title, saved, false)
      && after.url == (if t.kind == "link" then LastGiven(t.url, saved, true) else t.url)
  {
    if events != [] {
      hide IsSaved, Edited;
      var init, e := events[..|events| - 1], events[|events| - 1];
      LastSavedEditWins(t, decode, init);
      RefusedEditsLeaveNoTrace(t, decode, init);
      EditSaves(Run(t, decode, init), e.request, decode, e.now);
      var saved := SavedEvents(t.kind, decode, init);
      if IsSaved(t.kind, e.request, decode) {
        assert (saved + [e])[..|saved|] == saved;
      } else {
        assert saved + [] == saved;
      }
    }
  }

  /** The last title, or the last link, that is not empty. */
  function LastGiven(initial: string, saved: seq<Event>, links: bool): string
  {
    if saved == [] then initial else
    var r := saved[|saved| - 1].request;
    var given := if links then r.url else r.title;
    if given != "" then given else LastGiven(initial, saved[..|saved| - 1], links)
  }
}
