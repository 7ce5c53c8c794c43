/**
 The open-document tracker of the session manager (handleDidOpen and handleDidClose in
 cmd/lsp-session-manager/main.go), with one request handled at a time. LSP 3.17,
 "DidOpenTextDocument Notification" and "DidCloseTextDocument Notification": no second open without
 a close in between, and no close without an open.
 */
module OpenDocuments {
  import opened Wrappers

  datatype Notification = DidOpen(uri: string, text: string) | DidClose(uri: string)

  /** What the tracker remembers, and what has reached the language server. */
  datatype Tracker = Tracker(openDocs: set<string>, wire: seq<Notification>)

  datatype Request =
    | Open(uri: string, text: string, closeSent: bool, openSent: bool)   // the flags: would these writes succeed
    | Close(uri: string, closeSent: bool)

  function Sent(wire: seq<Notification>, n: Notification, ok: bool): seq<Notification> {
    if ok then wire + [n] else wire
  }

  function Handle(t: Tracker, r: Request): Tracker {
    match r
    case Open(uri, text, closeSent, openSent) =>
      var alreadyOpen := uri in t.openDocs;
      if alreadyOpen && !closeSent then t
      else
        var wire := if alreadyOpen then t.wire + [DidClose(uri)] else t.wire;
        Tracker(t.openDocs + {uri}, Sent(wire, DidOpen(uri, text), openSent))
    case Close(uri, closeSent) => Tracker(t.openDocs - {uri}, Sent(t.wire, DidClose(uri), closeSent))
  }

  class SessionDocuments {
    var openDocs: set<string>
    var wire: seq<Notification>

    constructor ()
      ensures State() == Tracker({}, [])
    {
      openDocs, wire := {}, [];
    }

    function State(): Tracker
      reads this
    {
      Tracker(openDocs, wire)
    }

    method SendNotification(n: Notification, ok: bool) returns (sent: bool)
      modifies this`wire
      ensures sent == ok && wire == Sent(old(wire), n, ok)
    {
      if ok {
        wire := wire + [n];
      }
      return ok;
    }

    method HandleDidOpen(uri: string, text: string, closeSent: bool, openSent: bool) returns (ok: bool)
      modifies this
      ensures State() == Handle(old(State()), Open(uri, text, closeSent, openSent))
      ensures ok <==> openSent && (uri in old(openDocs) ==> closeSent)
    {
      var alreadyOpen := uri in openDocs;
      openDocs := openDocs + {uri};
      if alreadyOpen {
        assert openDocs == old(openDocs);
        var closed := SendNotification(DidClose(uri), closeSent);
        if !closed {
          return false;
        }
      }
      ok := SendNotification(DidOpen(uri, text), openSent);
    }

    method HandleDidClose(uri: string, closeSent: bool) returns (ok: bool)
      modifies this
      ensures State() == Handle(old(State()), Close(uri, closeSent)) && ok == closeSent
    {
      openDocs := openDocs - {uri};
      ok := SendNotification(DidClose(uri), closeSent);
    }
  }

  // ----- the discipline on the wire

  /** The text the server holds for a document, None while it is closed. */
  function ServerText(wire: seq<Notification>, uri: string): Option<string> {
    if wire == [] then None
    else
      var last := wire[|wire| - 1];
      if last.uri != uri then ServerText(wire[..|wire| - 1], uri)
      else if last.DidOpen? then Some(last.text) else None
  }

  /** No document is opened while it is open. */
  ghost predicate Disciplined(wire: seq<Notification>) {
    forall i :: 0 <= i < |wire| && wire[i].DidOpen? ==> ServerText(wire[..i], wire[i].uri) == None
  }

  function HandleAll(t: Tracker, requests: seq<Request>): Tracker {
    if requests == [] then t
    else Handle(HandleAll(t, requests[..|requests| - 1]), requests[|requests| - 1])
  }

  predicate AllSent(r: Request) {
    r.closeSent && (r.Open? ==> r.openSent)
  }

  /** The text of the last request about a document, None if that was a close or there was none. */
  function LatestText(requests: seq<Request>, uri: string): Option<string> {
    if requests == [] then None
    else
      var last := requests[|requests| - 1];
      if last.uri != uri then LatestText(requests[..|requests| - 1], uri)
      else if last.Open? then Some(last.text) else None
  }

  /** The text of a document after one more notification. */
  function TextWith(before: Option<string>, n: Notification, uri: string): Option<string> {
    if n.uri != uri then before else if n.DidOpen? then Some(n.text) else None
  }

  lemma TextAfter(wire: seq<Notification>, n: Notification, uri: string)
    ensures ServerText(wire + [n], uri) == TextWith(ServerText(wire, uri), n, uri)
  {
    assert (wire + [n])[..|wire|] == wire;
  }

  lemma DisciplinedAfter(wire: seq<Notification>, n: Notification)
    ensures Disciplined(wire + [n]) <==> Disciplined(wire) && (n.DidOpen? ==> ServerText(wire, n.uri) == None)
  {
    var longer := wire + [n];
    assert longer[..|wire|] == wire;
    assert forall i :: 0 <= i < |wire| ==> longer[i] == wire[i] && longer[..i] == wire[..i];
  }

  /** What keeps the discipline: a document the server has open is one the tracker remembers. */
  ghost predicate Remembers(t: Tracker) {
    forall uri :: ServerText(t.wire, uri).Some? ==> uri in t.openDocs
  }

  lemma SentEffect(wire: seq<Notification>, n: Notification, ok: bool)
    ensures forall uri {:trigger ServerText(wire, uri)} {:trigger ServerText(Sent(wire, n, ok), uri)} ::
              ServerText(Sent(wire, n, ok), uri)
              == (if ok then TextWith(ServerText(wire, uri), n, uri) else ServerText(wire, uri))
    ensures Disciplined(Sent(wire, n, ok)) <==>
              Disciplined(wire) && (ok && n.DidOpen? ==> ServerText(wire, n.uri) == None)
  {
    DisciplinedAfter(wire, n);
    forall uri
      ensures ServerText(wire + [n], uri) == TextWith(ServerText(wire, uri), n, uri)
    {
      TextAfter(wire, n, uri);
    }
  }

  /** Exactly which request breaks the discipline: an open that is sent for a document the tracker has forgotten. */
  lemma HandleBreaks(t: Tracker, r: Request)
    requires Disciplined(t.wire)
    ensures Disciplined(Handle(t, r).wire)
       <==> !(r.Open? && r.openSent && r.uri !in t.openDocs && ServerText(t.wire, r.uri).Some?)
  {
    if r.Open? {
      var closed := t.wire + [DidClose(r.uri)];
      SentEffect(t.wire, DidClose(r.uri), true);
      SentEffect(closed, DidOpen(r.uri, r.text), r.openSent);
      SentEffect(t.wire, DidOpen(r.uri, r.text), r.openSent);
    } else {
      SentEffect(t.wire, DidClose(r.uri), r.closeSent);
    }
  }

  lemma HandleRemembers(t: Tracker, r: Request)
    requires Remembers(t) && (r.Close? ==> r.closeSent)
    ensures Remembers(Handle(t, r))
  {
    if r.Open? {
      var closed := t.wire + [DidClose(r.uri)];
      SentEffect(t.wire, DidClose(r.uri), true);
      SentEffect(closed, DidOpen(r.uri, r.text), r.openSent);
      SentEffect(t.wire, DidOpen(r.uri, r.text), r.openSent);
    } else {
      SentEffect(t.wire, DidClose(r.uri), r.closeSent);
    }
  }

  // ----- whole runs, told from the requests alone

  /** The last request about the document was an open. */
  predicate Tracked(requests: seq<Request>, uri: string) {
    requests != [] &&
    var last := requests[|requests| - 1];
    if last.uri == uri then last.Open? else Tracked(requests[..|requests| - 1], uri)
  }

  /** The server has the document open. */
  predicate Held(requests: seq<Request>, uri: string) {
    requests != [] &&
    var init, last := requests[..|requests| - 1], requests[|requests| - 1];
    if last.uri != uri then Held(init, uri)
    else if last.Close? then !last.closeSent && Held(init, uri)
    else if !Tracked(init, uri) then last.openSent || Held(init, uri)
    else if last.closeSent then last.openSent
    else Held(init, uri)
  }

  /** An open that is written although the document was last closed, by a close that did not get through. */
  predicate BreaksAt(requests: seq<Request>, i: nat)
    requires i < |requests|
  {
    var r := requests[i];
    r.Open? && r.openSent && !Tracked(requests[..i], r.uri) && Held(requests[..i], r.uri)
  }

  lemma HandleHolds(t: Tracker, r: Request, uri: string)
    ensures uri in Handle(t, r).openDocs <==> if r.uri == uri then r.Open? else uri in t.openDocs
    ensures ServerText(Handle(t, r).wire, uri).Some? <==>
              if r.uri != uri then ServerText(t.wire, uri).Some?
              else if r.Close? then !r.closeSent && ServerText(t.wire, uri).Some?
              else if uri !in t.openDocs then r.openSent || ServerText(t.wire, uri).Some?
              else if r.closeSent then r.openSent
              else ServerText(t.wire, uri).Some?
  {
    if r.Open? {
      var closed := t.wire + [DidClose(r.uri)];
      TextAfter(t.wire, DidClose(r.uri), uri);
      TextAfter(closed, DidOpen(r.uri, r.text), uri);
      TextAfter(t.wire, DidOpen(r.uri, r.text), uri);
    } else {
      TextAfter(t.wire, DidClose(r.uri), uri);
    }
  }

  lemma {:induction false} RunHolds(requests: seq<Request>, uri: string)
    ensures var t := HandleAll(Tracker({}, []), requests);
            && (uri in t.openDocs <==> Tracked(requests, uri))
            && (ServerText(t.wire, uri).Some? <==> Held(requests, uri))
  {
    if requests != [] {
      var init, last := requests[..|requests| - 1], requests[|requests| - 1];
      RunHolds(init, uri);
      HandleHolds(HandleAll(Tracker({}, []), init), last, uri);
    }
  }

  /** Once broken, the discipline stays broken. */
  lemma BrokenStaysBroken(t: Tracker, r: Request)
    requires !Disciplined(t.wire)
    ensures !Disciplined(Handle(t, r).wire)
  {
    if r.Open? {
      var closed := t.wire + [DidClose(r.uri)];
      SentEffect(t.wire, DidClose(r.uri), true);
      SentEffect(closed, DidOpen(r.uri, r.text), r.openSent);
      SentEffect(t.wire, DidOpen(r.uri, r.text), r.openSent);
    } else {
      SentEffect(t.wire, DidClose(r.uri), r.closeSent);
    }
  }

  /**
   Over every sequence of requests, whatever fails: the discipline holds exactly when no open is
   written for a document whose last request was a close and which the server still holds. A failed
   close that is repeated successfully does no harm.
   */
  lemma {:induction false} DisciplineExactly(requests: seq<Request>)
    ensures Disciplined(HandleAll(Tracker({}, []), requests).wire)
       <==> forall i :: 0 <= i < |requests| ==> !BreaksAt(requests, i)
  {
    if requests != [] {
      var n := |requests| - 1;
      DisciplineExactly(requests[..n]);
      BreaksEarlier(requests, n);
      LastBreaks(requests);
    }
  }

  lemma BreaksEarlier(requests: seq<Request>, n: nat)
    requires n <= |requests|
    ensures forall i :: 0 <= i < n ==> BreaksAt(requests, i) == BreaksAt(requests[..n], i)
  {
    forall i | 0 <= i < n
      ensures BreaksAt(requests, i) == BreaksAt(requests[..n], i)
    {
      assert requests[..n][..i] == requests[..i] && requests[..n][i] == requests[i];
    }
  }

  lemma LastBreaks(requests: seq<Request>)
    requires requests != []
    ensures Disciplined(HandleAll(Tracker({}, []), requests).wire)
       <==> Disciplined(HandleAll(Tracker({}, []), requests[..|requests| - 1]).wire)
            && !BreaksAt(requests, |requests| - 1)
  {
    var init, last := requests[..|requests| - 1], requests[|requests| - 1];
    var t := HandleAll(Tracker({}, []), init);
    RunHolds(init, last.uri);
    if Disciplined(t.wire) {
      HandleBreaks(t, last);
    } else {
      BrokenStaysBroken(t, last);
    }
  }

  // ----- the other half: no close without an open

  ghost predicate ClosesOpen(wire: seq<Notification>) {
    forall i :: 0 <= i < |wire| && wire[i].DidClose? ==> ServerText(wire[..i], wire[i].uri).Some?
  }

  lemma ClosesOpenAfter(wire: seq<Notification>, n: Notification)
    ensures ClosesOpen(wire + [n]) <==> ClosesOpen(wire) && (n.DidClose? ==> ServerText(wire, n.uri).Some?)
  {
    var longer := wire + [n];
    assert longer[..|wire|] == wire;
    assert forall i :: 0 <= i < |wire| ==> longer[i] == wire[i] && longer[..i] == wire[..i];
  }

  /** A close is written for every close request, and before every open of a document the tracker remembers. */
  predicate WritesClose(t: Tracker, r: Request) {
    r.closeSent && (r.Close? || r.uri in t.openDocs)
  }

  lemma HandleCloses(t: Tracker, r: Request)
    ensures ClosesOpen(Handle(t, r).wire)
       <==> ClosesOpen(t.wire) && (WritesClose(t, r) ==> ServerText(t.wire, r.uri).Some?)
  {
    ClosesOpenAfter(t.wire, DidClose(r.uri));
    if r.Open? {
      ClosesOpenAfter(t.wire, DidOpen(r.uri, r.text));
      ClosesOpenAfter(t.wire + [DidClose(r.uri)], DidOpen(r.uri, r.text));
    }
  }

  /** A close that is written although the server does not have the document open. */
  predicate ClosesNothingAt(requests: seq<Request>, i: nat)
    requires i < |requests|
  {
    var r := requests[i];
    r.closeSent && (r.Close? || Tracked(requests[..i], r.uri)) && !Held(requests[..i], r.uri)
  }

  lemma ClosesNothingEarlier(requests: seq<Request>, n: nat)
    requires n <= |requests|
    ensures forall i :: 0 <= i < n ==> ClosesNothingAt(requests, i) == ClosesNothingAt(requests[..n], i)
  {
    forall i | 0 <= i < n
      ensures ClosesNothingAt(requests, i) == ClosesNothingAt(requests[..n], i)
    {
      assert requests[..n][..i] == requests[..i] && requests[..n][i] == requests[i];
    }
  }

  /**
   Over every sequence of requests, whatever fails: only open documents are closed exactly when no close is
   written for a document the server does not hold, whether the client asked for it or a failed open had left
   the document remembered.
   */
  lemma {:induction false} ClosesOpenExactly(requests: seq<Request>)
    ensures ClosesOpen(HandleAll(Tracker({}, []), requests).wire)
       <==> forall i :: 0 <= i < |requests| ==> !ClosesNothingAt(requests, i)
  {
    if requests != [] {
      var n := |requests| - 1;
      ClosesOpenExactly(requests[..n]);
      ClosesNothingEarlier(requests, n);
      LastClosesNothing(requests);
    }
  }

  lemma LastClosesNothing(requests: seq<Request>)
    requires requests != []
    ensures ClosesOpen(HandleAll(Tracker({}, []), requests).wire)
       <==> ClosesOpen(HandleAll(Tracker({}, []), requests[..|requests| - 1]).wire)
            && !ClosesNothingAt(requests, |requests| - 1)
  {
    var init, last := requests[..|requests| - 1], requests[|requests| - 1];
    RunHolds(init, last.uri);
    HandleCloses(HandleAll(Tracker({}, []), init), last);
  }

  /** A client that only closes what it has open may still meet this: a failed open is taken for an open document. */
  lemma FailedOpenIsClosed(uri: string, text: string)
    ensures !ClosesOpen(HandleAll(Tracker({}, []), [Open(uri, text, true, false), Open(uri, text, true, true)]).wire)
  {
    var a, b := Open(uri, text, true, false), Open(uri, text, true, true);
    assert [a, b][..1] == [a] && [a][..0] == [];
    assert HandleAll(Tracker({}, []), [a]) == Handle(Tracker({}, []), a) == Tracker({uri}, []);
    HandleCloses(Tracker({uri}, []), b);
  }

  /** Whatever else fails, the discipline holds as long as the writes of handleDidClose succeed. */
  lemma {:induction false} DisciplineHolds(requests: seq<Request>)
    requires forall r :: r in requests && r.Close? ==> r.closeSent
    ensures var t := HandleAll(Tracker({}, []), requests); Disciplined(t.wire) && Remembers(t)
  {
    if requests != [] {
      var init, last := requests[..|requests| - 1], requests[|requests| - 1];
      assert forall r :: r in init ==> r in requests;
      DisciplineHolds(init);
      var t := HandleAll(Tracker({}, []), init);
      HandleBreaks(t, last);
      HandleRemembers(t, last);
    }
  }

  /** With a failed close it does not: the document is forgotten and then opened a second time. */
  lemma FailedCloseBreaksDiscipline(uri: string, text: string)
    ensures !Disciplined(HandleAll(Tracker({}, []), [Open(uri, text, true, true), Close(uri, false),
                                                     Open(uri, text, true, true)]).wire)
  {
    var a, b := Open(uri, text, true, true), Close(uri, false);
    var start := Tracker({}, []);
    assert [a, b, a][..2] == [a, b] && [a, b][..1] == [a] && [a][..0] == [];
    assert HandleAll(start, [a]) == Handle(start, a) == Tracker({uri}, [DidOpen(uri, text)]);
    var t := HandleAll(start, [a, b]);
    assert t == Tracker({}, [DidOpen(uri, text)]);
    SentEffect([], DidOpen(uri, text), true);
    HandleBreaks(start, a);
    HandleBreaks(t, a);
  }

  /**
   When every write succeeds, the tracker's set is exactly the set of documents the server has
   open, and the server holds the text of the latest open.
   */
  lemma {:induction false} TrackerIsExact(requests: seq<Request>, uri: string)
    requires forall r :: r in requests ==> AllSent(r)
    ensures var t := HandleAll(Tracker({}, []), requests);
            && ServerText(t.wire, uri) == LatestText(requests, uri)
            && (uri in t.openDocs <==> ServerText(t.wire, uri).Some?)
  {
    if requests != [] {
      var init, last := requests[..|requests| - 1], requests[|requests| - 1];
      assert last in requests && forall r :: r in init ==> r in requests;
      TrackerIsExact(init, uri);
      HandleText(HandleAll(Tracker({}, []), init), last, uri);
    }
  }

  /** An open that is written leaves the server with its text, whatever the server had before. */
  lemma OpenedText(t: Tracker, uri: string, text: string, closeSent: bool)
    requires uri in t.openDocs ==> closeSent
    ensures ServerText(Handle(t, Open(uri, text, closeSent, true)).wire, uri) == Some(text)
  {
    TextAfter(t.wire + [DidClose(uri)], DidOpen(uri, text), uri);
    TextAfter(t.wire, DidOpen(uri, text), uri);
  }

  lemma HandleText(t: Tracker, r: Request, uri: string)
    requires AllSent(r)
    ensures ServerText(Handle(t, r).wire, uri)
         == if r.uri != uri then ServerText(t.wire, uri) else if r.Open? then Some(r.text) else None
  {
    if r.Open? {
      TextAfter(t.wire, DidClose(r.uri), uri);
      TextAfter(t.wire + [DidClose(r.uri)], DidOpen(r.uri, r.text), uri);
      TextAfter(t.wire, DidOpen(r.uri, r.text), uri);
    } else {
      TextAfter(t.wire, DidClose(r.uri), uri);
    }
  }
}
