/**
  src/documents.rs: the store of documents synchronized with one language server.  The
  content hash is any function of the text.
 */
module Documents {
  import opened Wrappers
  import opened Utf8

  type I32 = n: int | -0x8000_0000 <= n < 0x8000_0000

  datatype SynchronizedDocument = SynchronizedDocument(
    absolutePath: string, relativePath: string, uri: string, languageId: string, version: I32, text: Text)

  datatype TrackedDocument = TrackedDocument(document: SynchronizedDocument, hash: int, closeOnShutdown: bool)

  datatype DocumentUpdate =
    | Opened(document: SynchronizedDocument, notify: bool)
    | Changed(document: SynchronizedDocument, previousText: Text)
    | Unchanged(document: SynchronizedDocument)

  datatype DocumentStoreError =
    | Closed(path: string)
    | LanguageChanged(path: string, previous: string, requested: string)
    | VersionOverflow(path: string)

  /** The abstract state of a document store. */
  datatype Store = Store(documents: map<string, TrackedDocument>, closed: bool) {
    predicate Matches(document: SynchronizedDocument) {
      && !closed
      && document.absolutePath in documents
      && documents[document.absolutePath].document == document
    }

    /** What synchronizing a file with the given contents returns. */
    function Update(absolutePath: string, relativePath: string, uri: string, languageId: string, text: Text, hash: int,
                    closeOnShutdown: bool): Result<DocumentUpdate, DocumentStoreError>
    {
      if closed then
        Err(DocumentStoreError.Closed(absolutePath))
      else if absolutePath !in documents then
        Ok(Opened(SynchronizedDocument(absolutePath, relativePath, uri, languageId, 1, text), closeOnShutdown))
      else
        var tracked := documents[absolutePath];
        if tracked.document.languageId != languageId then
          Err(LanguageChanged(absolutePath, tracked.document.languageId, languageId))
        else if tracked.hash == hash && tracked.document.text == text then
          Ok(Unchanged(tracked.document))
        else if tracked.document.version == 0x7FFF_FFFF then
          Err(VersionOverflow(absolutePath))
        else
          Ok(Changed(tracked.document.(version := tracked.document.version + 1, text := text), tracked.document.text))
    }

    /** How the store changes with it. */
    function Synchronized(absolutePath: string, update: Result<DocumentUpdate, DocumentStoreError>, hash: int,
                          closeOnShutdown: bool): Store
    {
      if update.Err? || update.value.Unchanged? then
        this
      else
        var close := if absolutePath in documents then documents[absolutePath].closeOnShutdown else closeOnShutdown;
        this.(documents := documents[absolutePath := TrackedDocument(update.value.document, hash, close)])
    }

    /** The document is tracked and the server was told to open it. */
    predicate IsOpened(document: SynchronizedDocument) {
      && document.absolutePath in documents
      && documents[document.absolutePath].closeOnShutdown
      && documents[document.absolutePath].document == document
    }

    /** The documents that `close_all` returns. */
    ghost predicate IsClosing(closing: seq<SynchronizedDocument>) {
      && (forall i :: 0 <= i < |closing| ==> IsOpened(closing[i]))
      && (forall path :: path in documents && documents[path].closeOnShutdown ==> documents[path].document in closing)
      && (forall i, j :: 0 <= i < j < |closing| ==> closing[i].absolutePath != closing[j].absolutePath)
    }

    /** Every document is filed under its own path, with the hash of its text. */
    ghost predicate Valid(contentHash: Text -> int) {
      && (forall path :: path in documents ==>
            && documents[path].document.absolutePath == path
            && documents[path].hash == contentHash(documents[path].document.text)
            && documents[path].document.version >= 1)
      && (closed ==> documents == map[])
    }
  }

  /** Comparing hashes first never changes the answer: only the text decides. */
  lemma {:induction false} HashNeverDecides(store: Store, contentHash: Text -> int, path: string,
                                            relativePath: string, uri: string,
                         languageId: string, text: Text, closeOnShutdown: bool)
    requires store.Valid(contentHash)
    ensures var update := store.Update(path, relativePath, uri, languageId, text, contentHash(text), closeOnShutdown);
            update.Ok? && update.value.Unchanged? <==>
            path in store.documents &&
            store.documents[path].document.languageId == languageId && store.documents[path].document.text == text
  {
    assert path in store.documents ==> store.documents[path].hash == contentHash(store.documents[path].document.text);
  }

  class DocumentStore {
    const contentHash: Text -> int
    var documents: map<string, TrackedDocument>
    var closed: bool

    ghost function State(): Store
      reads this
    {
      Store(documents, closed)
    }

    ghost predicate Valid()
      reads this
    {
      State().Valid(contentHash)
    }

    constructor (contentHash: Text -> int)
      ensures Valid() && State() == Store(map[], false) && this.contentHash == contentHash
    {
      this.contentHash := contentHash;
      documents, closed := map[], false;
    }

    method Matches(document: SynchronizedDocument) returns (r: bool)
      ensures r == State().Matches(document)
    {
      if closed || document.absolutePath !in documents {
        return false;
      }
      r := documents[document.absolutePath].document == document;
    }

    method Snapshots() returns (r: map<string, SynchronizedDocument>)
      ensures r.Keys == documents.Keys
      ensures forall path :: path in r ==> r[path] == documents[path].document
    {
      r := map path | path in documents :: documents[path].document;
    }

    method Synchronize(absolutePath: string, relativePath: string, uri: string, languageId: string, text: Text,
                       closeOnShutdown: bool)
      returns (r: Result<DocumentUpdate, DocumentStoreError>)
      requires Valid()
      modifies this
      ensures Valid()
      ensures r == old(State()).Update(absolutePath, relativePath, uri, languageId, text, contentHash(text), closeOnShutdown)
      ensures State() == old(State()).Synchronized(absolutePath, r, contentHash(text), closeOnShutdown)
    {
      if closed {
        return Err(DocumentStoreError.Closed(absolutePath));
      }
      var hash := contentHash(text);
      if absolutePath !in documents {
        var document := SynchronizedDocument(absolutePath, relativePath, uri, languageId, 1, text);
        documents := documents[absolutePath := TrackedDocument(document, hash, closeOnShutdown)];
        return Ok(Opened(document, closeOnShutdown));
      }
      var tracked := documents[absolutePath];
      if tracked.document.languageId != languageId {
        return Err(LanguageChanged(absolutePath, tracked.document.languageId, languageId));
      }
      if tracked.hash == hash && tracked.document.text == text {
        return Ok(Unchanged(tracked.document));
      }
      if tracked.document.version == 0x7FFF_FFFF {
        return Err(VersionOverflow(absolutePath));
      }
      var previousText := tracked.document.text;
      var document := tracked.document.(version := tracked.document.version + 1, text := text);
      documents := documents[absolutePath := tracked.(document := document, hash := hash)];
      r := Ok(Changed(document, previousText));
    }

    method CloseAll() returns (closing: seq<SynchronizedDocument>)
      requires Valid()
      modifies this
      ensures Valid() && State() == Store(map[], true)
      ensures old(State()).IsClosing(closing)
    {
      hide Closing;
      closed := true;
      var rest := documents;
      documents := map[];
      closing := [];
      ghost var all := old(State());
      ClosingBegins(all);
      while rest.Keys != {}
        invariant closed && documents == map[]
        invariant Closing(all, rest, closing)
        decreases |rest.Keys|
      {
        var path :| path in rest.Keys;
        var tracked := rest[path];
        ClosingStep(all, contentHash, rest, closing, path);
        rest := rest - {path};
        if tracked.closeOnShutdown {
          closing := closing + [tracked.document];
        }
      }
      ClosingEnds(all, rest, closing);
    }
  }

  /** `closing` are the opened documents of `all` that are no longer in `rest`. */
  ghost predicate Closing(all: Store, rest: map<string, TrackedDocument>, closing: seq<SynchronizedDocument>) {
    && (forall path :: path in rest ==> path in all.documents && rest[path] == all.documents[path])
    && (forall d :: d in closing ==> all.IsOpened(d) && d.absolutePath !in rest)
    && (forall path :: path in all.documents && path !in rest && all.documents[path].closeOnShutdown ==>
          all.documents[path].document in closing)
    && forall i, j :: 0 <= i < j < |closing| ==> closing[i].absolutePath != closing[j].absolutePath
  }

  lemma {:induction false} ClosingBegins(all: Store)
    ensures Closing(all, all.documents, [])
  {
  }

  lemma {:induction false} ClosingStep(all: Store, contentHash: Text -> int, rest: map<string, TrackedDocument>,
                                       closing: seq<SynchronizedDocument>, path: string)
    requires all.Valid(contentHash) && Closing(all, rest, closing) && path in rest
    ensures var d := rest[path].document;
            Closing(all, rest - {path}, if rest[path].closeOnShutdown then closing + [d] else closing)
  {
    var d := rest[path].document;
    assert all.documents[path] == rest[path];
    assert d.absolutePath == path;
    forall i | 0 <= i < |closing|
      ensures closing[i].absolutePath != path
    {
      assert closing[i] in closing;
    }
  }

  lemma {:induction false} ClosingEnds(all: Store, rest: map<string, TrackedDocument>,
                                       closing: seq<SynchronizedDocument>)
    requires Closing(all, rest, closing) && rest.Keys == {}
    ensures all.IsClosing(closing)
  {
    forall path | path in all.documents
      ensures path !in rest
    {
      assert path !in rest.Keys;
    }
    forall i | 0 <= i < |closing|
      ensures all.IsOpened(closing[i])
    {
      assert closing[i] in closing;
    }
  }

  /** Synchronizing keeps the store well formed. */
  lemma {:induction false} SynchronizedIsValid(store: Store, contentHash: Text -> int, path: string,
                                               relativePath: string, uri: string,
                            languageId: string, text: Text, closeOnShutdown: bool)
    requires store.Valid(contentHash)
    ensures var update := store.Update(path, relativePath, uri, languageId, text, contentHash(text), closeOnShutdown);
            store.Synchronized(path, update, contentHash(text), closeOnShutdown).Valid(contentHash)
  {
  }

  /**
    Which error is returned and when: the store is closed, the path is tracked under another
    language, or only the text differs and the version is the greatest `i32`.  An error changes nothing.
   */
  lemma {:induction false} RefusedExactly(store: Store, contentHash: Text -> int, path: string, relativePath: string,
                                          uri: string, languageId: string, text: Text, closeOnShutdown: bool)
    requires store.Valid(contentHash)
    ensures var update := store.Update(path, relativePath, uri, languageId, text, contentHash(text), closeOnShutdown);
            var known := path in store.documents;
            && (update.Err? && update.error.Closed? <==> store.closed)
            && (update.Err? && update.error.LanguageChanged? <==>
                  !store.closed && known && store.documents[path].document.languageId != languageId)
            && (update.Err? && update.error.VersionOverflow? <==>
                  && !store.closed && known && store.documents[path].document.languageId == languageId
                  && store.documents[path].document.text != text && store.documents[path].document.version == 2147483647)
            && (update.Err? ==>
                  && update.error.path == path
                  && (update.error.LanguageChanged? ==>
                        update.error == LanguageChanged(path, store.documents[path].document.languageId, languageId))
                  && store.Synchronized(path, update, contentHash(text), closeOnShutdown) == store)
  {
    HashNeverDecides(store, contentHash, path, relativePath, uri, languageId, text, closeOnShutdown);
  }

  /**
    What a synchronized path holds afterwards: the given text, as a new document of version 1,
    as the document it was, or as that document with the next version, and the update says which.
   */
  lemma {:induction false} HoldsTheText(store: Store, contentHash: Text -> int, path: string, relativePath: string,
                                        uri: string, languageId: string, text: Text, closeOnShutdown: bool)
    requires store.Valid(contentHash)
    requires store.Update(path, relativePath, uri, languageId, text, contentHash(text), closeOnShutdown).Ok?
    ensures var update := store.Update(path, relativePath, uri, languageId, text, contentHash(text), closeOnShutdown);
            var after := store.Synchronized(path, update, contentHash(text), closeOnShutdown);
            && path in after.documents && after.closed == store.closed
            && var d := after.documents[path].document;
               && d.text == text && d.languageId == languageId
               && after.documents == store.documents[path := after.documents[path]]
               && if path !in store.documents then
                    && d == SynchronizedDocument(path, relativePath, uri, languageId, 1, text)
                    && update == Ok(Opened(d, closeOnShutdown)) && after.documents[path].closeOnShutdown == closeOnShutdown
                  else
                    var was := store.documents[path];
                    && d == was.document.(version := d.version, text := text)
                    && after.documents[path].closeOnShutdown == was.closeOnShutdown
                    && if text == was.document.text then
                         d.version == was.document.version && update == Ok(Unchanged(d))
                       else
                         d.version == was.document.version + 1 && update == Ok(Changed(d, was.document.text))
  {
    HashNeverDecides(store, contentHash, path, relativePath, uri, languageId, text, closeOnShutdown);
  }

  /**
    The version of a tracked document only grows, by one with every change of its text, and
    as long as it stays the same the whole document does.
   */
  lemma {:induction false} VersionsCount(store: Store, contentHash: Text -> int, path: string, relativePath: string,
                                         uri: string,
                      languageId: string, text: Text, closeOnShutdown: bool, other: string)
    requires store.Valid(contentHash) && other in store.documents
    ensures var update := store.Update(path, relativePath, uri, languageId, text, contentHash(text), closeOnShutdown);
            var after := store.Synchronized(path, update, contentHash(text), closeOnShutdown);
            && other in after.documents
            && var d, d' := store.documents[other].document, after.documents[other].document;
               && (d'.text == d.text ==> d' == d)
               && (d'.text != d.text ==> other == path && d' == d.(version := d.version + 1, text := text))
  {
    HashNeverDecides(store, contentHash, path, relativePath, uri, languageId, text, closeOnShutdown);
  }
}
