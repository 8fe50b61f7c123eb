/**
  src/lsp.rs: keeping a language server's copy of the documents equal to the store, through
  the outbound queue (LSP 3.17, "Text Document Synchronization").

  Each critical section, held under the document lock or consisting of one `try_send`, is
  one event; callers may interleave them in any order.
 */
module DocumentSync {
  import opened Wrappers
  import opened Utf8
  import opened Positions
  import WorkspaceEdits
  import opened Documents

  datatype SyncKind = FullSync | IncrementalSync

  /** What was negotiated with the server, the hash the store uses, and `path_to_file_uri`. */
  datatype Config = Config(openClose: bool, kind: SyncKind, encoding: PositionEncoding, contentHash: Text -> int,
                           fileUri: string -> string)
  {
    /** Percent-encoding gives distinct paths distinct URIs. */
    ghost predicate DistinctUris() {
      forall a, b :: fileUri(a) == fileUri(b) ==> a == b
    }

    /** The server is told about opening and closing, under a URI for each path. */
    ghost predicate Synchronizes() {
      openClose && DistinctUris()
    }
  }

  datatype ContentChange = WholeText(text: Text) | RangedText(range: Range, text: Text)

  datatype Message =
    | DidOpen(uri: string, languageId: string, version: int, text: Text)
    | DidChange(uri: string, version: int, change: ContentChange)
    | DidClose(uri: string)
    | RetriedRequest(id: nat, document: SynchronizedDocument)
    | OtherMessage(id: nat)

  // ----- a reference server -----

  datatype ServerDocument = ServerDocument(languageId: string, version: int, text: Text)

  /** The documents a server has open, and the URIs it has seen closed. */
  datatype Server = Server(open: map<string, ServerDocument>, closed: set<string>)

  function ApplyChange(text: Text, change: ContentChange, encoding: PositionEncoding): Option<Text> {
    match change
    case WholeText(whole) => Some(whole)
    case RangedText(range, replacement) =>
      var start, end := LspIndex(text, range.start, encoding), LspIndex(text, range.end, encoding);
      if start.None? || end.None? || start.value > end.value || end.value > |text| then None
      else Some(WorkspaceEdits.Replace(text, WorkspaceEdits.Splice(start.value, end.value, replacement)))
  }

  /**
    A strict server: per URI it accepts one didOpen with version 1, then didChanges that
    count the version up by one and address text that is there, then at most one didClose.
   */
  function Deliver(server: Server, m: Message, encoding: PositionEncoding): Option<Server> {
    match m
    case DidOpen(uri, languageId, version, text) =>
      if uri in server.open || uri in server.closed || version != 1 then None
      else Some(server.(open := server.open[uri := ServerDocument(languageId, 1, text)]))
    case DidChange(uri, version, change) =>
      if uri !in server.open || version != server.open[uri].version + 1 then None
      else
        var text := ApplyChange(server.open[uri].text, change, encoding);
        if text.None? then None
        else Some(server.(open := server.open[uri := server.open[uri].(version := version, text := text.value)]))
    case DidClose(uri) =>
      if uri !in server.open then None
      else Some(Server(server.open - {uri}, server.closed + {uri}))
    case RetriedRequest(_, _) => Some(server)
    case OtherMessage(_) => Some(server)
  }

  /** What the messages make of a server that starts with nothing; `None` when it refuses one. */
  function Replay(messages: seq<Message>, encoding: PositionEncoding): Option<Server> {
    if messages == [] then Some(Server(map[], {}))
    else
      var n := |messages| - 1;
      match Replay(messages[..n], encoding)
      case None => None
      case Some(server) => Deliver(server, messages[n], encoding)
  }

  // ----- the client -----

  /** `closing` holds the documents whose didClose `close_documents` has yet to send. */
  datatype Client = Client(store: Store, outbound: seq<Message>, closing: seq<SynchronizedDocument>)

  datatype Event =
    | Synchronize(path: string, relativePath: string, languageId: string, text: Text, accepted: bool)
    | CloseAll(documents: seq<SynchronizedDocument>)
    | SendClose(accepted: bool)
    | Retry(id: nat, document: SynchronizedDocument, accepted: bool)
    | Send(id: nat)

  function UpdateFor(config: Config, store: Store, e: Event): Result<DocumentUpdate, DocumentStoreError>
    requires e.Synchronize?
  {
    store.Update(e.path, e.relativePath, config.fileUri(e.path), e.languageId, e.text, config.contentHash(e.text),
                 config.openClose)
  }

  /** The incremental change that replaces the whole of the previous text. */
  function WholeRange(previous: Text, text: Text, encoding: PositionEncoding): Result<ContentChange, PositionError> {
    var end :- EndPosition(previous, encoding);
    Ok(RangedText(Range(Position(0, 0), end), text))
  }

  /** The notification an update calls for; an error when the end of the old text does not fit a position. */
  function Notification(config: Config, update: DocumentUpdate): Result<Option<Message>, PositionError> {
    match update
    case Opened(d, notify) =>
      Ok(if notify then Some(DidOpen(d.uri, d.languageId, d.version, d.text)) else None)
    case Changed(d, previousText) =>
      var change :- if config.kind == FullSync then Ok(WholeText(d.text))
                    else WholeRange(previousText, d.text, config.encoding);
      Ok(Some(DidChange(d.uri, d.version, change)))
    case Unchanged(_) => Ok(None)
  }

  function TrySend(client: Client, m: Message, accepted: bool): Client {
    if accepted then client.(outbound := client.outbound + [m]) else client
  }

  function Next(config: Config, client: Client, e: Event): Client {
    match e
    case Synchronize(path, _, _, text, accepted) =>
      // synchronize_document_with_snapshot: the store first, then the notification
      var update := UpdateFor(config, client.store, e);
      var synced := client.(store := client.store.Synchronized(path, update, config.contentHash(text), config.openClose));
      if update.Err? then synced
      else
        var note := Notification(config, update.value);
        if note.Ok? && note.value.Some? then TrySend(synced, note.value.value, accepted) else synced
    case CloseAll(documents) =>
      Client(Store(map[], true), client.outbound, client.closing + documents)
    case SendClose(accepted) =>
      // the first refused didClose ends close_documents
      if client.closing == [] then client
      else if accepted then
        TrySend(client, DidClose(client.closing[0].uri), true).(closing := client.closing[1..])
      else client.(closing := [])
    case Retry(id, document, accepted) =>
      // request_attempt holds the lock from `matches` to the send
      if client.store.Matches(document) then TrySend(client, RetriedRequest(id, document), accepted) else client
    case Send(id) => TrySend(client, OtherMessage(id), true)
  }

  ghost predicate Enabled(client: Client, e: Event) {
    e.CloseAll? ==> client.store.IsClosing(e.documents)
  }

  /** Every notification the event calls for can be expressed and is accepted by the queue. */
  ghost predicate Delivered(config: Config, client: Client, e: Event) {
    match e
    case Synchronize(_, _, _, _, accepted) =>
      var update := UpdateFor(config, client.store, e);
      update.Ok? ==>
        var note := Notification(config, update.value);
        note.Ok? && (note.value.Some? ==> accepted)
    case SendClose(accepted) => accepted || client.closing == []
    case _ => true
  }

  // ----- the mirror -----

  function MirrorOf(d: SynchronizedDocument): ServerDocument {
    ServerDocument(d.languageId, d.version, d.text)
  }

  /** The server has open exactly the tracked documents, with their texts and versions. */
  ghost predicate MirrorsStore(config: Config, server: Server, store: Store) {
    && (forall path :: path in store.documents ==>
          config.fileUri(path) in server.open && server.open[config.fileUri(path)] == MirrorOf(store.documents[path].document))
    && (forall uri :: uri in server.open ==> exists path :: path in store.documents && uri == config.fileUri(path))
  }

  /** The server has open exactly the documents that are yet to be closed. */
  ghost predicate MirrorsClosing(server: Server, closing: seq<SynchronizedDocument>) {
    && (forall i :: 0 <= i < |closing| ==>
          closing[i].uri in server.open && server.open[closing[i].uri] == MirrorOf(closing[i]))
    && (forall uri :: uri in server.open ==> exists i :: 0 <= i < |closing| && uri == closing[i].uri)
    && (forall i, j :: 0 <= i < j < |closing| ==> closing[i].uri != closing[j].uri)
  }

  ghost predicate WellFiled(config: Config, store: Store) {
    && store.Valid(config.contentHash)
    && forall path :: path in store.documents ==>
         store.documents[path].document.uri == config.fileUri(path) && store.documents[path].closeOnShutdown
  }

  /** The mirror invariant: replaying the queue succeeds and gives the store. */
  ghost predicate Mirrored(config: Config, client: Client) {
    && WellFiled(config, client.store)
    && var server := Replay(client.outbound, config.encoding);
       && server.Some?
       && if client.store.closed then MirrorsClosing(server.value, client.closing)
          else client.closing == [] && server.value.closed == {} && MirrorsStore(config, server.value, client.store)
  }

  lemma {:induction false} ReplayAppend(messages: seq<Message>, m: Message, encoding: PositionEncoding)
    ensures var server := Replay(messages, encoding);
            Replay(messages + [m], encoding) == if server.None? then None else Deliver(server.value, m, encoding)
  {
    assert (messages + [m])[..|messages|] == messages;
  }

  /** The range from the start to the end position covers precisely the old text. */
  lemma {:induction false} WholeRangeReplacesAll(previous: Text, text: Text, encoding: PositionEncoding)
    requires WholeRange(previous, text, encoding).Ok?
    ensures ApplyChange(previous, WholeRange(previous, text, encoding).value, encoding) == Some(text)
    ensures WholeRange(previous, text, encoding).value.RangedText?
  {
    hide Encode, EndPosition, LspIndex, WorkspaceEdits.Replace;
    EndPositionMeaning(previous, encoding);
    StartIsZero(previous, encoding);
    ReplaceAll(previous, text);
  }

  lemma {:induction false} StartIsZero(text: Text, encoding: PositionEncoding)
    ensures LspIndex(text, Position(0, 0), encoding) == Some(0)
  {
  }

  lemma {:induction false} ReplaceAll(previous: Text, text: Text)
    ensures WorkspaceEdits.Replace(previous, WorkspaceEdits.Splice(0, |previous|, text)) == text
  {
    assert previous[..0] == [] && previous[|previous|..] == [];
    assert [] + text + [] == text;
  }

  /**
    The change that is sent for an update turns the previous text into the new one, as the whole
    text for a server that has asked for that, and as a ranged change for one that takes changes.
   */
  lemma {:induction false} NotifiedChangeIsText(config: Config, d: SynchronizedDocument, previous: Text)
    requires Notification(config, Changed(d, previous)).Ok?
    ensures var note := Notification(config, Changed(d, previous)).value;
            && note.Some? && note.value.DidChange? && note.value.uri == d.uri && note.value.version == d.version
            && ApplyChange(previous, note.value.change, config.encoding) == Some(d.text)
            && (note.value.change.WholeText? <==> config.kind == FullSync)
  {
    hide ApplyChange, WholeRange;
    if config.kind == IncrementalSync {
      WholeRangeReplacesAll(previous, d.text, config.encoding);
    } else {
      WholeTextReplacesAll(previous, d.text, config.encoding);
    }
  }

  lemma {:induction false} WholeTextReplacesAll(previous: Text, text: Text, encoding: PositionEncoding)
    ensures ApplyChange(previous, WholeText(text), encoding) == Some(text)
  {
  }

  // ----- one event -----

  /** Synchronizing files the document under its path, with its URI. */
  lemma {:induction false} StaysWellFiled(config: Config, store: Store, e: Event)
    requires config.Synchronizes() && WellFiled(config, store) && e.Synchronize?
    ensures WellFiled(config, StoreAfter(config, store, e))
  {
    SynchronizedIsValid(store, config.contentHash, e.path, e.relativePath, config.fileUri(e.path), e.languageId, e.text,
                        config.openClose);
  }

  function StoreAfter(config: Config, store: Store, e: Event): Store
    requires e.Synchronize?
  {
    store.Synchronized(e.path, UpdateFor(config, store, e), config.contentHash(e.text), config.openClose)
  }

  lemma {:induction false} NotifiedIsMirrored(config: Config, client: Client, m: Message, server: Server, store: Store)
    requires Mirrored(config, client) && !client.store.closed
    requires Deliver(Replay(client.outbound, config.encoding).value, m, config.encoding) == Some(server)
    requires server.closed == {} && WellFiled(config, store) && !store.closed && MirrorsStore(config, server, store)
    ensures Mirrored(config, Client(store, client.outbound + [m], client.closing))
  {
    hide Deliver, Replay, MirrorsStore, WellFiled;
    ReplayAppend(client.outbound, m, config.encoding);
  }

  lemma {:induction false} UnnotifiedIsMirrored(config: Config, client: Client, store: Store)
    requires Mirrored(config, client) && !client.store.closed
    requires WellFiled(config, store) && !store.closed
    ensures Mirrored(config, Client(store, client.outbound, client.closing)) <==>
            MirrorsStore(config, Replay(client.outbound, config.encoding).value, store)
  {
  }

  lemma {:induction false} SamePath(config: Config, a: string, b: string)
    requires config.DistinctUris() && config.fileUri(a) == config.fileUri(b)
    ensures a == b
  {
  }

  lemma {:induction false} NotYetOpen(config: Config, server: Server, store: Store, path: string)
    requires config.DistinctUris() && MirrorsStore(config, server, store) && path !in store.documents
    ensures config.fileUri(path) !in server.open
  {
    hide Config.DistinctUris;
    if config.fileUri(path) in server.open {
      var p :| p in store.documents && config.fileUri(path) == config.fileUri(p);
      SamePath(config, path, p);
    }
  }

  lemma {:induction false} OpenedIsMirrored(config: Config, client: Client, e: Event)
    requires config.Synchronizes() && Mirrored(config, client) && e.Synchronize? && !client.store.closed
    requires e.path !in client.store.documents
    ensures Mirrored(config, Next(config, client, e)) <==> e.accepted
  {
    hide Store.Update, MirrorsStore, WellFiled, Replay, Store.Valid;
    var d := SynchronizedDocument(e.path, e.relativePath, config.fileUri(e.path), e.languageId, 1, e.text);
    var m := DidOpen(d.uri, d.languageId, d.version, d.text);
    OpenedUpdate(config, client.store, e);
    var server := Replay(client.outbound, config.encoding).value;
    var store := StoreAfter(config, client.store, e);
    StaysWellFiled(config, client.store, e);
    NotYetOpen(config, server, client.store, e.path);
    if e.accepted {
      var server' := server.(open := server.open[config.fileUri(e.path) := MirrorOf(d)]);
      ExtendedMirror(config, server, server', client.store, store, e.path, d);
      NotifiedIsMirrored(config, client, m, server', store);
    } else {
      UnnotifiedIsMirrored(config, client, store);
      MirrorAt(config, server, store, e.path);
    }
  }

  lemma {:induction false} MirrorAt(config: Config, server: Server, store: Store, path: string)
    requires path in store.documents
    ensures MirrorsStore(config, server, store) ==>
              config.fileUri(path) in server.open && server.open[config.fileUri(path)] == MirrorOf(store.documents[path].document)
  {
  }

  lemma {:induction false} OpenedUpdate(config: Config, store: Store, e: Event)
    requires e.Synchronize? && !store.closed && e.path !in store.documents
    ensures UpdateFor(config, store, e) ==
            Ok(Opened(SynchronizedDocument(e.path, e.relativePath, config.fileUri(e.path), e.languageId, 1, e.text),
                      config.openClose))
  {
  }

  /** Filing one document and telling the server about it keeps the mirror. */
  lemma {:induction false} ExtendedMirror(config: Config, server: Server, server': Server, store: Store,
                                          store': Store, path: string, d: SynchronizedDocument)
    requires config.DistinctUris() && MirrorsStore(config, server, store)
    requires server'.open == server.open[config.fileUri(path) := MirrorOf(d)]
    requires store'.documents.Keys == store.documents.Keys + {path} && store'.documents[path].document == d
    requires forall p :: p in store.documents && p != path ==> store'.documents[p].document == store.documents[p].document
    ensures MirrorsStore(config, server', store')
  {
    hide Config.DistinctUris, MirrorOf;
    forall p | p in store'.documents
      ensures config.fileUri(p) in server'.open && server'.open[config.fileUri(p)] == MirrorOf(store'.documents[p].document)
    {
      if p != path {
        if config.fileUri(p) == config.fileUri(path) {
          SamePath(config, p, path);
        }
        assert p in store.documents;
      }
    }
    forall uri | uri in server'.open
      ensures exists p :: p in store'.documents && uri == config.fileUri(p)
    {
      if uri in server.open {
        var p :| p in store.documents && uri == config.fileUri(p);
        assert p in store'.documents;
      } else {
        assert path in store'.documents;
      }
    }
  }

  lemma {:induction false} ChangedIsMirrored(config: Config, client: Client, e: Event)
    requires config.Synchronizes() && Mirrored(config, client) && e.Synchronize? && !client.store.closed
    requires e.path in client.store.documents && ChangesText(config, client, e)
    ensures Mirrored(config, Next(config, client, e)) <==> Delivered(config, client, e)
  {
    hide ApplyChange, WholeRange, MirrorsStore, Replay, Notification, Store.Valid;
    var previous := client.store.documents[e.path].document;
    var d := previous.(version := previous.version + 1, text := e.text);
    var update := Changed(d, previous.text);
    assert UpdateFor(config, client.store, e) == Ok(update);
    assert previous.uri == config.fileUri(e.path);
    var server := Replay(client.outbound, config.encoding).value;
    var store := StoreAfter(config, client.store, e);
    StaysWellFiled(config, client.store, e);
    MirrorAt(config, server, client.store, e.path);
    hide WellFiled;
    var note := Notification(config, update);
    if note.Ok? {
      NotifiedChangeIsText(config, d, previous.text);
    }
    if note.Ok? && e.accepted {
      var server' := server.(open := server.open[config.fileUri(e.path) := MirrorOf(d)]);
      ExtendedMirror(config, server, server', client.store, store, e.path, d);
      NotifiedIsMirrored(config, client, note.value.value, server', store);
    } else {
      UnnotifiedIsMirrored(config, client, store);
      MirrorAt(config, server, store, e.path);
    }
  }

  /** Only documents opened by notification are closed. */
  lemma {:induction false} NothingToClose(store: Store, closing: seq<SynchronizedDocument>)
    requires store.IsClosing(closing)
    requires forall path :: path in store.documents ==> !store.documents[path].closeOnShutdown
    ensures closing == []
  {
    assert |closing| > 0 ==> store.IsOpened(closing[0]);
  }

  lemma {:induction false} ClosingUrisDiffer(config: Config, store: Store, closing: seq<SynchronizedDocument>, i: nat,
                                             j: nat)
    requires config.DistinctUris() && WellFiled(config, store) && store.IsClosing(closing) && i < j < |closing|
    ensures closing[i].uri != closing[j].uri
  {
    hide Config.DistinctUris, Store.Valid;
    assert store.IsOpened(closing[i]) && store.IsOpened(closing[j]);
    if closing[i].uri == closing[j].uri {
      SamePath(config, closing[i].absolutePath, closing[j].absolutePath);
    }
  }

  /** What is closed is what the server has open. */
  lemma {:induction false} ClosingIsMirrored(config: Config, server: Server, store: Store,
                                             closing: seq<SynchronizedDocument>)
    requires config.DistinctUris() && WellFiled(config, store) && MirrorsStore(config, server, store) && store.IsClosing(closing)
    ensures MirrorsClosing(server, closing)
  {
    hide Config.DistinctUris, Store.Valid;
    forall i, j | 0 <= i < j < |closing|
      ensures closing[i].uri != closing[j].uri
    {
      ClosingUrisDiffer(config, store, closing, i, j);
    }
    forall i | 0 <= i < |closing|
      ensures closing[i].uri in server.open && server.open[closing[i].uri] == MirrorOf(closing[i])
    {
      assert store.IsOpened(closing[i]);
    }
    forall uri | uri in server.open
      ensures exists i :: 0 <= i < |closing| && uri == closing[i].uri
    {
      var path :| path in store.documents && uri == config.fileUri(path);
      var d := store.documents[path].document;
      assert d in closing && d.uri == uri;
    }
  }

  lemma {:induction false} CloseAllIsMirrored(config: Config, client: Client, e: Event)
    requires config.Synchronizes() && Mirrored(config, client) && e.CloseAll? && Enabled(client, e)
    ensures Mirrored(config, Next(config, client, e))
  {
    hide Config.DistinctUris, MirrorsStore, MirrorsClosing, Replay, Store.IsClosing;
    if client.store.closed {
      NothingToClose(client.store, e.documents);
      assert client.closing + [] == client.closing;
    } else {
      ClosingIsMirrored(config, Replay(client.outbound, config.encoding).value, client.store, e.documents);
      assert [] + e.documents == e.documents;
    }
  }

  /** A didClose takes the first document off the server and off the list. */
  lemma {:induction false} OneClosed(server: Server, closing: seq<SynchronizedDocument>)
    requires MirrorsClosing(server, closing) && closing != []
    ensures closing[0].uri in server.open
    ensures MirrorsClosing(Server(server.open - {closing[0].uri}, server.closed + {closing[0].uri}), closing[1..])
    ensures !MirrorsClosing(server, [])
  {
    hide MirrorOf;
    var open, rest := server.open - {closing[0].uri}, closing[1..];
    assert closing[0].uri in server.open;
    forall uri | uri in open
      ensures exists i :: 0 <= i < |rest| && uri == rest[i].uri
    {
      var i :| 0 <= i < |closing| && uri == closing[i].uri;
      assert rest[i - 1] == closing[i];
    }
    forall i | 0 <= i < |rest|
      ensures rest[i].uri in open && open[rest[i].uri] == MirrorOf(rest[i])
    {
      assert rest[i] == closing[i + 1];
    }
  }

  lemma {:induction false} SendCloseIsMirrored(config: Config, client: Client, accepted: bool)
    requires config.Synchronizes() && Mirrored(config, client)
    ensures Mirrored(config, Next(config, client, SendClose(accepted))) <==> accepted || client.closing == []
  {
    hide Config.DistinctUris, MirrorsStore, MirrorsClosing, Replay, WellFiled;
    if client.closing != [] {
      OneClosed(Replay(client.outbound, config.encoding).value, client.closing);
      ReplayAppend(client.outbound, DidClose(client.closing[0].uri), config.encoding);
    }
  }

  /** The first refused didClose is the last. */
  lemma {:induction false} RefusedCloseEndsClosing(config: Config, client: Client, accepted: bool)
    requires !accepted
    ensures var after := Next(config, client, SendClose(false));
            after.closing == [] && Next(config, after, SendClose(accepted)) == after && after.outbound == client.outbound
  {
  }

  lemma {:induction false} ReadOnlyIsMirrored(config: Config, client: Client, m: Message, accepted: bool)
    requires Mirrored(config, client) && (m.RetriedRequest? || m.OtherMessage?)
    ensures Mirrored(config, TrySend(client, m, accepted))
  {
    ReplayAppend(client.outbound, m, config.encoding);
  }

  /** One event keeps the mirror exactly when every notification it calls for is delivered. */
  lemma {:induction false} MirrorKeptExactly(config: Config, client: Client, e: Event)
    requires config.Synchronizes() && Mirrored(config, client) && Enabled(client, e)
    ensures Mirrored(config, Next(config, client, e)) <==> Delivered(config, client, e)
  {
    hide Mirrored;
    match e
    case Synchronize(path, _, _, _, _) =>
      if client.store.closed || (path in client.store.documents && !ChangesText(config, client, e)) {
      } else if path !in client.store.documents {
        OpenedUpdate(config, client.store, e);
        OpenedIsMirrored(config, client, e);
      } else {
        ChangedIsMirrored(config, client, e);
      }
    case CloseAll(_) => CloseAllIsMirrored(config, client, e);
    case SendClose(accepted) => SendCloseIsMirrored(config, client, accepted);
    case Retry(id, document, accepted) => ReadOnlyIsMirrored(config, client, RetriedRequest(id, document), accepted);
    case Send(id) => ReadOnlyIsMirrored(config, client, OtherMessage(id), true);
  }

  predicate ChangesText(config: Config, client: Client, e: Event) {
    && e.Synchronize?
    && var update := UpdateFor(config, client.store, e);
       update.Ok? && update.value.Changed?
  }

  // ----- whole runs -----

  /** The client after the first `n` events, from an empty store and queue. */
  function After(config: Config, events: seq<Event>, n: nat): Client
    requires n <= |events|
  {
    if n == 0 then Client(Store(map[], false), [], [])
    else Next(config, After(config, events, n - 1), events[n - 1])
  }

  ghost predicate Run(config: Config, events: seq<Event>) {
    forall n :: 0 <= n < |events| ==> Enabled(After(config, events, n), events[n])
  }

  ghost predicate AllDelivered(config: Config, events: seq<Event>) {
    forall n :: 0 <= n < |events| ==> Delivered(config, After(config, events, n), events[n])
  }

  /**
    However callers interleave, as long as every notification is delivered the server
    accepts every message and has exactly the documents of the store, text and version.
   */
  lemma {:induction false} MirrorRefinesStore(config: Config, events: seq<Event>, n: nat)
    requires config.Synchronizes() && Run(config, events) && AllDelivered(config, events) && n <= |events|
    ensures Mirrored(config, After(config, events, n))
  {
    hide Next, Delivered, Enabled, Mirrored;
    if n == 0 {
      NothingIsMirrored(config);
    } else {
      MirrorRefinesStore(config, events, n - 1);
      MirrorKeptExactly(config, After(config, events, n - 1), events[n - 1]);
      assert Delivered(config, After(config, events, n - 1), events[n - 1]);
      assert Enabled(After(config, events, n - 1), events[n - 1]);
    }
  }

  lemma {:induction false} NothingIsMirrored(config: Config)
    ensures Mirrored(config, Client(Store(map[], false), [], []))
  {
  }

  /**
    Synchronizing an open store with a text, under the language the file is known by and with a
    version left, brings that text to the server when its notification is delivered.
   */
  lemma {:induction false} TextReachesServer(config: Config, events: seq<Event>, n: nat)
    requires config.Synchronizes() && Run(config, events) && AllDelivered(config, events) && n < |events|
    requires events[n].Synchronize? && !After(config, events, n).store.closed
    requires var documents := After(config, events, n).store.documents;
             events[n].path in documents ==>
               && documents[events[n].path].document.languageId == events[n].languageId
               && documents[events[n].path].document.version < 2147483647
    ensures var server := Replay(After(config, events, n + 1).outbound, config.encoding);
            && server.Some? && config.fileUri(events[n].path) in server.value.open
            && server.value.open[config.fileUri(events[n].path)].text == events[n].text
  {
    hide Replay, Config.DistinctUris, Store.Update, Store.Synchronized, Store.Valid;
    var e, before := events[n], After(config, events, n);
    StoreStaysValid(config, events, n);
    RefusedExactly(before.store, config.contentHash, e.path, e.relativePath, config.fileUri(e.path), e.languageId, e.text,
                   config.openClose);
    HoldsTheText(before.store, config.contentHash, e.path, e.relativePath, config.fileUri(e.path), e.languageId, e.text,
                 config.openClose);
    MirrorRefinesStore(config, events, n + 1);
  }

  /** The server copy that a retried request will meet. */
  ghost predicate MeetsItsDocument(messages: seq<Message>, k: nat, encoding: PositionEncoding) {
    && k < |messages|
    && (messages[k].RetriedRequest? ==>
         var d, server := messages[k].document, Replay(messages[..k], encoding);
         server.Some? && d.uri in server.value.open && server.value.open[d.uri] == MirrorOf(d))
  }

  lemma {:induction false} OutboundGrows(config: Config, client: Client, e: Event)
    ensures var before, after := client.outbound, Next(config, client, e).outbound;
            after == before || (|after| == |before| + 1 && after[..|before|] == before)
    ensures var before, after := client.outbound, Next(config, client, e).outbound;
            |after| == |before| + 1 && after[|before|].RetriedRequest? ==>
              client.store.Matches(after[|before|].document)
    ensures e.Retry? ==>
              Next(config, client, e).outbound == client.outbound +
                if client.store.Matches(e.document) && e.accepted then [RetriedRequest(e.id, e.document)] else []
  {
    hide Notification, UpdateFor;
    if e.Synchronize? && UpdateFor(config, client.store, e).Ok? {
      NeverARequest(config, UpdateFor(config, client.store, e).value);
    }
  }

  lemma {:induction false} NeverARequest(config: Config, update: DocumentUpdate)
    ensures var note := Notification(config, update);
            note.Ok? && note.value.Some? ==> !note.value.value.RetriedRequest?
  {
  }

  /**
    Whenever a retried document request is enqueued, the server, having read everything
    queued before it, has exactly the text and version the request was made for.
   */
  lemma {:induction false} RetriesMeetTheirDocument(config: Config, events: seq<Event>, n: nat, k: nat)
    requires config.Synchronizes() && Run(config, events) && AllDelivered(config, events) && n <= |events|
    requires k < |After(config, events, n).outbound|
    ensures MeetsItsDocument(After(config, events, n).outbound, k, config.encoding)
  {
    hide Next, Delivered, Enabled, Replay, WellFiled;
    if n > 0 {
      var before, after := After(config, events, n - 1), After(config, events, n);
      OutboundGrows(config, before, events[n - 1]);
      if k < |before.outbound| {
        RetriesMeetTheirDocument(config, events, n - 1, k);
        assert after.outbound[..k] == before.outbound[..k];
      } else if after.outbound[k].RetriedRequest? {
        MirrorRefinesStore(config, events, n - 1);
        UriOfMatch(config, before.store, after.outbound[k].document);
        assert after.outbound[..k] == before.outbound;
      }
    }
  }

  lemma {:induction false} UriOfMatch(config: Config, store: Store, d: SynchronizedDocument)
    requires WellFiled(config, store) && store.Matches(d)
    ensures d.absolutePath in store.documents && d.uri == config.fileUri(d.absolutePath)
  {
  }

  // ----- no A-B-A -----

  lemma {:induction false} StoreStaysValid(config: Config, events: seq<Event>, n: nat)
    requires n <= |events|
    ensures After(config, events, n).store.Valid(config.contentHash)
  {
    if n > 0 {
      StoreStaysValid(config, events, n - 1);
      var e := events[n - 1];
      if e.Synchronize? {
        SynchronizedIsValid(After(config, events, n - 1).store, config.contentHash, e.path, e.relativePath,
                            config.fileUri(e.path), e.languageId, e.text, config.openClose);
      }
    }
  }

  /** A tracked document is tracked until the store closes, and its version tells whether it changed. */
  ghost predicate Progressed(before: Store, after: Store, path: string) {
    && path in before.documents
    && (!after.closed ==>
         && !before.closed
         && path in after.documents
         && before.documents[path].document.version <= after.documents[path].document.version
         && (before.documents[path].document.version == after.documents[path].document.version ==>
               before.documents[path].document == after.documents[path].document))
  }

  lemma {:induction false} EventProgresses(config: Config, client: Client, e: Event, path: string)
    requires client.store.Valid(config.contentHash) && path in client.store.documents
    ensures Progressed(client.store, Next(config, client, e).store, path)
  {
    if e.Synchronize? {
      VersionsCount(client.store, config.contentHash, e.path, e.relativePath, config.fileUri(e.path), e.languageId, e.text,
                    config.openClose, path);
    }
  }

  lemma {:induction false} RunProgresses(config: Config, events: seq<Event>, i: nat, j: nat, path: string)
    requires i <= j <= |events| && path in After(config, events, i).store.documents
    requires !After(config, events, i).store.closed
    ensures Progressed(After(config, events, i).store, After(config, events, j).store, path)
  {
    hide Next;
    if i < j {
      RunProgresses(config, events, i, j - 1, path);
      var before, after := After(config, events, j - 1), After(config, events, j);
      StoreStaysValid(config, events, j - 1);
      if before.store.closed {
        ClosedStaysClosed(config, before, events[j - 1]);
      } else {
        EventProgresses(config, before, events[j - 1], path);
      }
    }
  }

  lemma {:induction false} ClosedStaysClosed(config: Config, client: Client, e: Event)
    requires client.store.closed
    ensures Next(config, client, e).store.closed
  {
  }

  /** A document that matches at two moments has matched at every moment in between. */
  lemma {:induction false} NoABA(config: Config, events: seq<Event>, i: nat, j: nat, k: nat, d: SynchronizedDocument)
    requires i <= j <= k <= |events|
    requires After(config, events, i).store.Matches(d) && After(config, events, k).store.Matches(d)
    ensures After(config, events, j).store.Matches(d)
  {
    hide Next, After;
    RunProgresses(config, events, i, j, d.absolutePath);
    StoreClosesOnce(config, events, j, k);
    RunProgresses(config, events, j, k, d.absolutePath);
  }

  lemma {:induction false} StoreClosesOnce(config: Config, events: seq<Event>, i: nat, j: nat)
    requires i <= j <= |events|
    ensures After(config, events, i).store.closed ==> After(config, events, j).store.closed
  {
    hide Next;
    if i < j {
      StoreClosesOnce(config, events, i, j - 1);
      if After(config, events, j - 1).store.closed {
        ClosedStaysClosed(config, After(config, events, j - 1), events[j - 1]);
      }
    }
  }

  // ----- servers that are not told about opening and closing -----

  ghost predicate Untold(client: Client) {
    && client.closing == []
    && (forall path :: path in client.store.documents ==> !client.store.documents[path].closeOnShutdown)
    && forall m :: m in client.outbound ==> !m.DidOpen? && !m.DidClose?
  }

  lemma {:induction false} UntoldStep(config: Config, client: Client, e: Event)
    requires !config.openClose && Untold(client) && Enabled(client, e)
    ensures Untold(Next(config, client, e))
  {
    match e
    case Synchronize(_, _, _, _, _) => UntoldSync(config, client, e);
    case CloseAll(documents) => NothingToClose(client.store, documents);
    case SendClose(_) =>
    case Retry(_, _, _) =>
    case Send(_) =>
  }

  lemma {:induction false} UntoldSync(config: Config, client: Client, e: Event)
    requires !config.openClose && Untold(client) && e.Synchronize?
    ensures Untold(Next(config, client, e))
  {
    hide WholeRange;
    var update := UpdateFor(config, client.store, e);
    if update.Ok? {
      UntoldNote(config, update.value);
      hide Notification;
    }
  }

  lemma {:induction false} UntoldNote(config: Config, update: DocumentUpdate)
    requires update.Opened? ==> !update.notify
    ensures var note := Notification(config, update);
            note.Ok? && note.value.Some? ==> !note.value.value.DidOpen? && !note.value.value.DidClose?
  {
    hide WholeRange;
  }

  /** A server without open/close synchronization is never sent a didOpen or a didClose. */
  lemma {:induction false} NeverOpenedNorClosed(config: Config, events: seq<Event>, n: nat)
    requires !config.openClose && Run(config, events) && n <= |events|
    ensures Untold(After(config, events, n))
  {
    hide Next, Untold, Enabled;
    if n == 0 {
      NothingUntold();
    } else {
      NeverOpenedNorClosed(config, events, n - 1);
      assert Enabled(After(config, events, n - 1), events[n - 1]);
      UntoldStep(config, After(config, events, n - 1), events[n - 1]);
    }
  }

  lemma {:induction false} NothingUntold()
    ensures Untold(Client(Store(map[], false), [], []))
  {
  }
}
