/** Persistence of the whole store (src/storage.js): a MongoDB collection when
    one was connected at start-up, otherwise a JSON file written through a
    temporary file and rename, with backup-and-reset of a file that does not
    parse. */
module Storage {
  import opened Wrappers
  import opened Js

  /** The store: user id to that user's data. */
  type Store = map<string, Value>

  /** The fields of one MongoDB document. */
  type Document = map<string, Value>

  /** `JSON.stringify(v, null, 2)` and `JSON.parse(text)`, which is `None` when
      it throws. */
  datatype JsonText = JsonText(stringify: Value -> string, parse: string -> Option<Value>)

  /** Parsing what was stringified gives back every value JSON can represent. */
  ghost predicate RoundTrips(j: JsonText)
  {
    forall v :: IsJson(v) ==> j.parse(j.stringify(v)) == Some(v)
  }

  // ---------------------------------------------------------------------------
  // Remote read: folding the collection's documents into a store

  /** `const { _id, userId, ...userData } = doc`: the document less those two fields. */
  function UserData(doc: Document): (r: Document)
    ensures "_id" !in r && "userId" !in r
    ensures forall k :: k in doc && k != "_id" && k != "userId" <==> k in r
    ensures forall k :: k in r ==> r[k] == doc[k]
  {
    doc - {"_id", "userId"}
  }

  /** The store key of a document (`String(userId)`), or `None` when its
      `userId` is falsy and the document is skipped. */
  function DocumentKey(doc: Document): (r: Option<string>)
    ensures r.Some? <==> Truthy(Prop(doc, "userId"))
    ensures Prop(doc, "userId").Str? && Prop(doc, "userId").s != "" ==> r == Some(Prop(doc, "userId").s)
  {
    var userId := Prop(doc, "userId");
    if Truthy(userId) then Some(ToJsString(userId)) else None
  }

  /** One pass of the read loop: `if (userId) store[userId] = userData`. */
  function AddDocument(store: Store, doc: Document): (r: Store)
    ensures DocumentKey(doc).None? ==> r == store
    ensures DocumentKey(doc).Some? ==>
      && r.Keys == store.Keys + {DocumentKey(doc).value}
      && r[DocumentKey(doc).value] == Obj(UserData(doc))
      && forall k :: k in store && k != DocumentKey(doc).value ==> r[k] == store[k]
  {
    match DocumentKey(doc)
    case None => store
    case Some(k) => store[k := Obj(UserData(doc))]
  }

  /** The store the read loop builds from `docs`, taken in order. */
  function FoldDocuments(docs: seq<Document>): (r: Store)
    ensures docs != [] && DocumentKey(docs[|docs| - 1]).Some? ==>
      Prop(r, DocumentKey(docs[|docs| - 1]).value) == Obj(UserData(docs[|docs| - 1]))
  {
    if docs == [] then map[] else AddDocument(FoldDocuments(docs[..|docs| - 1]), docs[|docs| - 1])
  }

  /** The read loop of `readStore` in remote mode. */
  method ReadDocuments(docs: seq<Document>) returns (store: Store)
    ensures store == FoldDocuments(docs)
  {
    store := map[];
    for i := 0 to |docs|
      invariant store == FoldDocuments(docs[..i])
    {
      assert docs[..i + 1][..i] == docs[..i];
      var doc := docs[i];
      var userId := Prop(doc, "userId");
      if Truthy(userId) {
        store := store[ToJsString(userId) := Obj(UserData(doc))];
      }
    }
    assert docs[..|docs|] == docs;
  }

  /** The folded store is keyed by exactly the keys of the documents with a
      truthy `userId`; documents without one are skipped. */
  lemma {:induction false} FoldKeys(docs: seq<Document>)
    ensures forall k :: k in FoldDocuments(docs) <==>
      exists i :: 0 <= i < |docs| && DocumentKey(docs[i]) == Some(k)
  {
    if docs != [] {
      var init := docs[..|docs| - 1];
      FoldKeys(init);
      forall k ensures k in FoldDocuments(docs) <==> exists i :: 0 <= i < |docs| && DocumentKey(docs[i]) == Some(k) {
        if k in FoldDocuments(docs) && DocumentKey(docs[|docs| - 1]) != Some(k) {
          var i :| 0 <= i < |init| && DocumentKey(init[i]) == Some(k);
          assert docs[i] == init[i];
        }
        if exists i :: 0 <= i < |docs| && DocumentKey(docs[i]) == Some(k) {
          var i :| 0 <= i < |docs| && DocumentKey(docs[i]) == Some(k);
          if i < |docs| - 1 { assert init[i] == docs[i]; }
        }
      }
    }
  }

  /** For every key the folded store holds the user data of the LAST document
      with that key. */
  lemma {:induction false} FoldLastWins(docs: seq<Document>, i: int)
    requires 0 <= i < |docs| && DocumentKey(docs[i]).Some?
    requires forall j :: i < j < |docs| ==> DocumentKey(docs[j]) != DocumentKey(docs[i])
    ensures var k := DocumentKey(docs[i]).value;
      k in FoldDocuments(docs) && FoldDocuments(docs)[k] == Obj(UserData(docs[i]))
  {
    if i < |docs| - 1 {
      var init := docs[..|docs| - 1];
      FoldLastWins(init, i);
    }
  }

  /** When every document's user data is what `store` holds for its key, the
      fold agrees with `store` on every key it produces. */
  lemma {:induction false} FoldAgrees(docs: seq<Document>, store: Store)
    requires forall i :: 0 <= i < |docs| ==> KeyedEntry(store, docs[i])
    ensures forall k :: k in FoldDocuments(docs) ==> k in store && FoldDocuments(docs)[k] == store[k]
  {
    if docs != [] {
      var init := docs[..|docs| - 1];
      assert forall i :: 0 <= i < |init| ==> init[i] == docs[i];
      FoldAgrees(init, store);
    }
  }

  // ---------------------------------------------------------------------------
  // Remote write: one upsert per store entry

  /** A `replaceOne` operation of the bulk write. */
  datatype ReplaceOne = ReplaceOne(filterUserId: string, replacement: Document, upsert: bool)

  /** The own enumerable properties `...v` copies: an object's properties, a
      string's characters or an array's elements under their indices, and
      nothing for other primitives. */
  function Spread(v: Value): map<string, Value>
  {
    match v
    case Obj(props) => props
    case Str(s) =>
      NatToStringIsInjective();
      map i | 0 <= i < |s| :: NatToString(i) := Str([s[i]])
    case Arr(items) =>
      NatToStringIsInjective();
      map i | 0 <= i < |items| :: NatToString(i) := items[i]
    case _ => map[]
  }

  lemma NatToStringIsInjective()
    ensures forall m: nat, n: nat :: m != n ==> NatToString(m) != NatToString(n)
  {
    forall m: nat, n: nat | m != n ensures NatToString(m) != NatToString(n) {
      NatToStringInjective(m, n);
    }
  }

  /** `{ userId, ...userData }`: the user id first, then every property of the
      user data, which overrides a `userId` of its own. */
  function Replacement(userId: string, userData: Value): (r: Document)
    ensures r.Keys == Spread(userData).Keys + {"userId"}
    ensures forall k :: k in Spread(userData) ==> r[k] == Spread(userData)[k]
    ensures "userId" !in Spread(userData) ==> r["userId"] == Str(userId)
  {
    map["userId" := Str(userId)] + Spread(userData)
  }

  /** The operations `writeStore` sends in remote mode, keyed by user id: one
      upsert per entry, filtered on that user id. The bulk write is unordered,
      so the model keeps no order among them. */
  function WriteOperations(store: Store): (ops: map<string, ReplaceOne>)
    ensures ops.Keys == store.Keys
    ensures forall u :: u in ops ==> ops[u].filterUserId == u && ops[u].upsert
    ensures forall u :: u in ops ==> ops[u].replacement == Replacement(u, store[u])
  {
    map u | u in store :: ReplaceOne(u, Replacement(u, store[u]), true)
  }

  /** The entries that survive a write followed by a read: a non-empty user id
      and object data with neither `userId` nor `_id` of its own. */
  predicate RemoteSafe(store: Store)
  {
    forall u :: u in store ==>
      u != "" && store[u].Obj? && "userId" !in store[u].props && "_id" !in store[u].props
  }

  /** `doc` is the upsert replacement written for entry `u`, with at most an
      `_id` added by the collection. */
  predicate ReadsBackAs(store: Store, doc: Document, u: string)
  {
    u in store && doc - {"_id"} == WriteOperations(store)[u].replacement
  }

  /** Reading back what a remote write upserted reproduces the store, in
      whatever order the collection returns the documents and whatever `_id`
      it gave them: document `i` is the replacement written for entry
      `users[i]` (possibly with an `_id` added), and every entry is listed. */
  lemma RemoteRoundTrip(store: Store, users: seq<string>, docs: seq<Document>)
    requires RemoteSafe(store)
    requires |users| == |docs|
    requires forall i :: 0 <= i < |docs| ==> ReadsBackAs(store, docs[i], users[i])
    requires forall u :: u in store ==> u in users
    ensures FoldDocuments(docs) == store
  {
    forall i | 0 <= i < |docs| ensures KeyedEntry(store, docs[i]) {
      ReplacementReadsBack(store, docs[i], users[i]);
    }
    FoldAgrees(docs, store);
    var folded := FoldDocuments(docs);
    forall u | u in store ensures u in folded {
      var i :| 0 <= i < |users| && users[i] == u;
      ReplacementReadsBack(store, docs[i], u);
      FoldHasKey(docs, i);
    }
    SameEntries(folded, store);
  }

  /** Two stores with the same keys and values are equal. */
  lemma SameEntries(a: Store, b: Store)
    requires forall k :: k in a ==> k in b && a[k] == b[k]
    requires forall k :: k in b ==> k in a
    ensures a == b
  {
  }

  /** `doc` has a key and `store` holds its user data under that key. */
  predicate KeyedEntry(store: Store, doc: Document)
  {
    DocumentKey(doc).Some? && DocumentKey(doc).value in store
    && store[DocumentKey(doc).value] == Obj(UserData(doc))
  }

  /** A document with a key puts that key in the fold. */
  lemma {:induction false} FoldHasKey(docs: seq<Document>, i: int)
    requires 0 <= i < |docs| && DocumentKey(docs[i]).Some?
    ensures DocumentKey(docs[i]).value in FoldDocuments(docs)
  {
    if i < |docs| - 1 {
      var init := docs[..|docs| - 1];
      FoldHasKey(init, i);
    }
  }

  /** A document upserted for entry `u` reads back under `u` as that entry. */
  lemma ReplacementReadsBack(store: Store, doc: Document, u: string)
    requires RemoteSafe(store) && ReadsBackAs(store, doc, u)
    ensures DocumentKey(doc) == Some(u)
    ensures store[u] == Obj(UserData(doc))
  {
    var data := store[u];
    assert data.Obj? && "userId" !in data.props && "_id" !in data.props;
    assert Spread(data) == data.props;
    var rep := WriteOperations(store)[u].replacement;
    assert rep == Replacement(u, data);
    assert rep == map["userId" := Str(u)] + data.props;
    StripAddedFields(doc, u, data.props);
  }

  lemma StripAddedFields(doc: Document, u: string, props: map<string, Value>)
    requires "userId" !in props && "_id" !in props
    requires doc - {"_id"} == map["userId" := Str(u)] + props
    ensures Prop(doc, "userId") == Str(u)
    ensures UserData(doc) == props
  {
    var m := doc - {"_id"};
    assert m["userId"] == Str(u);
    assert UserData(doc) == m - {"userId"};
  }

  /** The guard on the round trip is needed: user data that carries its own
      `userId` redirects its document to that user on the next read. */
  lemma OwnUserIdRedirects()
    ensures var store := map["u1" := Obj(map["userId" := Str("u2")])];
      FoldDocuments([WriteOperations(store)["u1"].replacement]) == map["u2" := Obj(map[])]
  {
    var store := map["u1" := Obj(map["userId" := Str("u2")])];
    var rep := WriteOperations(store)["u1"].replacement;
    assert rep == map["userId" := Str("u2")];
    assert [rep][..0] == [];
    assert UserData(rep) == map[];
  }

  // ---------------------------------------------------------------------------
  // The local file

  /** The directory and file paths the file backend uses. */
  const DataDir: string := "data"
  const DataFile: string := "data/user-secrets.json"
  const TempFile: string := DataFile + ".tmp"

  /** `${DATA_FILE}.broken.${Date.now()}`. */
  function BackupPath(now: int): (r: string)
    ensures r != DataFile && r != TempFile
  {
    DataFile + ".broken." + IntToString(now)
  }

  /** Distinct clock readings name distinct backups. */
  lemma BackupPathsDistinct(a: nat, b: nat)
    requires a != b
    ensures BackupPath(a) != BackupPath(b)
  {
    NatToStringInjective(a, b);
    var p := DataFile + ".broken.";
    assert BackupPath(a)[|p|..] == NatToString(a);
    assert BackupPath(b)[|p|..] == NatToString(b);
  }

  /** The local filesystem: directories and regular files with their text. */
  datatype FileSystem = FileSystem(dirs: set<string>, files: map<string, string>)

  /** `fs.existsSync(path)`. */
  predicate Exists(f: FileSystem, path: string)
  {
    path in f.dirs || path in f.files
  }

  /** The file backend's own paths (the data file, its temporary file and its
      backups, all of which start with the data file's path) are not directories. */
  predicate Plain(f: FileSystem)
  {
    forall d :: d in f.dirs ==> !StartsWith(d, DataFile)
  }

  /** What `ensureDataFile` leaves: the directory created if absent, and the data
      file initialised to `{}` if absent. An existing file is never touched. */
  function Ensured(f: FileSystem, json: JsonText): (r: FileSystem)
    ensures r.dirs == f.dirs + {DataDir} || r.dirs == f.dirs
    ensures DataDir in r.dirs || DataDir in r.files
    ensures DataFile !in f.dirs ==> DataFile in r.files
    ensures DataFile in f.files ==> r.files == f.files
    ensures DataFile !in f.files && DataFile !in f.dirs ==>
      r.files == f.files[DataFile := json.stringify(Obj(map[]))]
  {
    var withDir := if Exists(f, DataDir) then f else f.(dirs := f.dirs + {DataDir});
    if Exists(withDir, DataFile) then withDir
    else withDir.(files := withDir.files[DataFile := json.stringify(Obj(map[]))])
  }

  /** `ensureDataFile` is idempotent. */
  lemma EnsureIdempotent(f: FileSystem, json: JsonText)
    ensures Ensured(Ensured(f, json), json) == Ensured(f, json)
  {
  }

  /** What a file read returns and leaves behind. */
  datatype FileRead = FileRead(store: Value, fs: FileSystem)

  /** `readStore` in file mode, with the clock reading and whether the backup
      copy succeeds passed in. */
  function ReadFile(f: FileSystem, json: JsonText, now: int, copySucceeds: bool): (r: FileRead)
    requires Plain(f)
    ensures Truthy(r.store) && IsObjectType(r.store)
  {
    var g := Ensured(f, json);
    var raw := g.files[DataFile];
    match json.parse(raw)
    case Some(parsed) =>
      FileRead(if Truthy(parsed) && IsObjectType(parsed) then parsed else Obj(map[]), g)
    case None =>
      var saved := if copySucceeds then g.(files := g.files[BackupPath(now) := raw]) else g;
      FileRead(Obj(map[]), saved.(files := saved.files[DataFile := json.stringify(Obj(map[]))]))
  }

  /** A file that parses to an object or an array is returned as it is, anything
      else that parses (null, a number, a string, a boolean) reads as `{}`; in
      both cases the file system is left as `ensureDataFile` made it. */
  lemma ReadParsedFile(f: FileSystem, json: JsonText, now: int, copySucceeds: bool)
    requires Plain(f)
    requires json.parse(Ensured(f, json).files[DataFile]).Some?
    ensures var parsed := json.parse(Ensured(f, json).files[DataFile]).value;
      var r := ReadFile(f, json, now, copySucceeds);
      && r.fs == Ensured(f, json)
      && (parsed.Obj? || parsed.Arr? ==> r.store == parsed)
      && (!parsed.Obj? && !parsed.Arr? ==> r.store == Obj(map[]))
  {
  }

  /** A file that does not parse reads as `{}`: its text is copied to the backup
      path when the copy succeeds, the file is reset to `{}` whether or not it
      did, and no other path changes. */
  lemma ReadCorruptFile(f: FileSystem, json: JsonText, now: int, copySucceeds: bool)
    requires Plain(f)
    requires json.parse(Ensured(f, json).files[DataFile]).None?
    ensures var g := Ensured(f, json);
      var r := ReadFile(f, json, now, copySucceeds);
      && r.store == Obj(map[])
      && r.fs.dirs == g.dirs
      && r.fs.files[DataFile] == json.stringify(Obj(map[]))
      && (copySucceeds ==> r.fs.files[BackupPath(now)] == g.files[DataFile])
      && (forall p :: p != DataFile && p != BackupPath(now) ==>
            (p in r.fs.files <==> p in g.files) && (p in g.files ==> r.fs.files[p] == g.files[p]))
      && (!copySucceeds ==> r.fs.files == g.files[DataFile := json.stringify(Obj(map[]))])
  {
    assert BackupPath(now) != DataFile by {
      assert |BackupPath(now)| > |DataFile|;
    }
  }

  /** The temporary snapshot `writeStore` writes before renaming it. */
  function WriteTemp(f: FileSystem, json: JsonText, store: Store): FileSystem
  {
    var g := Ensured(f, json);
    g.(files := g.files[TempFile := json.stringify(Obj(store))])
  }

  /** `fs.renameSync(tempPath, DATA_FILE)`. */
  function RenameTemp(f: FileSystem): FileSystem
    requires TempFile in f.files
  {
    f.(files := f.files[DataFile := f.files[TempFile]] - {TempFile})
  }

  /** `writeStore` in file mode: afterwards the data file holds the new snapshot,
      the temporary file is gone, and no other path differs from what
      `ensureDataFile` left. */
  function WriteFile(f: FileSystem, json: JsonText, store: Store): (r: FileSystem)
    requires Plain(f)
    ensures DataFile in r.files && r.files[DataFile] == json.stringify(Obj(store))
    ensures TempFile !in r.files
    ensures r.dirs == Ensured(f, json).dirs
    ensures forall p :: p != DataFile && p != TempFile ==>
      (p in r.files <==> p in Ensured(f, json).files)
      && (p in r.files ==> r.files[p] == Ensured(f, json).files[p])
  {
    assert |TempFile| != |DataFile|;
    RenameTemp(WriteTemp(f, json, store))
  }

  /** A crash after the temporary file is written and before the rename leaves
      the data file as it was: the next read sees the previous snapshot. */
  lemma CrashBeforeRename(f: FileSystem, json: JsonText, store: Store, now: int, copySucceeds: bool)
    requires Plain(f)
    ensures Plain(WriteTemp(f, json, store))
    ensures WriteTemp(f, json, store).files[DataFile] == Ensured(f, json).files[DataFile]
    ensures ReadFile(WriteTemp(f, json, store), json, now, copySucceeds).store
         == ReadFile(f, json, now, copySucceeds).store
  {
    var g := Ensured(f, json);
    var t := WriteTemp(f, json, store);
    assert TempFile != DataFile;
    assert Ensured(t, json) == t;
  }

  /** What the file holds after a write reads back as the written store. */
  lemma WriteThenRead(f: FileSystem, json: JsonText, store: Store, now: int, copySucceeds: bool)
    requires Plain(f) && RoundTrips(json) && IsJson(Obj(store))
    ensures Plain(WriteFile(f, json, store))
    ensures ReadFile(WriteFile(f, json, store), json, now, copySucceeds)
         == FileRead(Obj(store), WriteFile(f, json, store))
  {
    var w := WriteFile(f, json, store);
    assert json.parse(w.files[DataFile]) == Some(Obj(store));
    assert Ensured(w, json) == w;
  }

  /** A corrupt file is recovered from: the read returns `{}`, and a write
      followed by a read then returns what was written. */
  lemma RecoverFromCorruptFile(f: FileSystem, json: JsonText, store: Store, now: int, later: int, copySucceeds: bool)
    requires Plain(f) && RoundTrips(json) && IsJson(Obj(store))
    requires json.parse(Ensured(f, json).files[DataFile]).None?
    ensures var r := ReadFile(f, json, now, copySucceeds);
      && r.store == Obj(map[])
      && Plain(r.fs)
      && ReadFile(WriteFile(r.fs, json, store), json, later, copySucceeds).store == Obj(store)
  {
    var r := ReadFile(f, json, now, copySucceeds);
    assert Plain(r.fs);
    WriteThenRead(r.fs, json, store, later, copySucceeds);
  }

  // ---------------------------------------------------------------------------
  // The storage object

  /** `createStorage(config)`: the per-process storage with its backend handle. */
  class StorageBackend {
    /** JSON text conversion. */
    const json: JsonText
    /** `isMongoEnabled`, which is `Boolean(config.mongodbUri)`. */
    const mongoEnabled: bool
    /** Whether `mongoCollection` is set: remote mode. */
    var connected: bool
    /** The local filesystem. */
    var fs: FileSystem
    /** The operation sets handed to `bulkWrite`, in order. */
    var bulkWrites: seq<map<string, ReplaceOne>>

    ghost predicate Valid()
      reads this
    {
      (connected ==> mongoEnabled) && Plain(fs)
    }

    constructor (json: JsonText, mongodbUri: string, fs: FileSystem)
      requires Plain(fs)
      ensures Valid()
      ensures this.json == json && mongoEnabled == (mongodbUri != "")
      ensures !connected && this.fs == fs && bulkWrites == []
    {
      this.json := json;
      mongoEnabled := mongodbUri != "";
      connected := false;
      this.fs := fs;
      bulkWrites := [];
    }

    /** `initStorage`: no URI leaves file mode; otherwise one connection attempt
        (connect and index creation, whose joint success is passed in), and a
        failure resets the handle so that file mode stays in force. */
    method InitStorage(connectSucceeds: bool)
      requires Valid()
      modifies this`connected
      ensures Valid()
      ensures connected == (mongoEnabled && connectSucceeds) || (!mongoEnabled && connected == old(connected))
    {
      if !mongoEnabled {
        return;
      }
      if connectSucceeds {
        connected := true;
      } else {
        connected := false;
      }
    }

    /** `ensureDataFile`. */
    method EnsureDataFile()
      requires Valid()
      modifies this`fs
      ensures Valid()
      ensures fs == Ensured(old(fs), json)
    {
      if !Exists(fs, DataDir) {
        fs := fs.(dirs := fs.dirs + {DataDir});
      }
      if !Exists(fs, DataFile) {
        fs := fs.(files := fs.files[DataFile := json.stringify(Obj(map[]))]);
      }
    }

    /** `readStore`. In remote mode `docs` is what `find({}).toArray()` returned;
        in file mode `now` is `Date.now()` and `copySucceeds` whether the backup
        copy works. */
    method ReadStore(docs: seq<Document>, now: int, copySucceeds: bool) returns (store: Value)
      requires Valid()
      modifies this`fs
      ensures Valid()
      ensures connected ==> store == Obj(FoldDocuments(docs)) && fs == old(fs)
      ensures !connected ==> FileRead(store, fs) == ReadFile(old(fs), json, now, copySucceeds)
    {
      if connected {
        var s := ReadDocuments(docs);
        return Obj(s);
      }
      EnsureDataFile();
      var raw := fs.files[DataFile];
      var parsed := json.parse(raw);
      if parsed.Some? {
        store := if Truthy(parsed.value) && IsObjectType(parsed.value) then parsed.value else Obj(map[]);
        return;
      }
      var backup := BackupPath(now);
      if copySucceeds {
        fs := fs.(files := fs.files[backup := raw]);
      }
      fs := fs.(files := fs.files[DataFile := json.stringify(Obj(map[]))]);
      store := Obj(map[]);
    }

    /** `writeStore`: in remote mode one unordered bulk write of the upserts,
        and none at all for an empty store; in file mode the snapshot goes to the
        temporary file, which is then renamed over the data file. */
    method WriteStore(store: Store)
      requires Valid()
      modifies this`fs, this`bulkWrites
      ensures Valid()
      ensures connected ==>
        && fs == old(fs)
        && bulkWrites == old(bulkWrites) + (if |store| > 0 then [WriteOperations(store)] else [])
      ensures !connected ==> fs == WriteFile(old(fs), json, store) && bulkWrites == old(bulkWrites)
    {
      if connected {
        var operations := WriteOperations(store);
        if |operations| > 0 {
          bulkWrites := bulkWrites + [operations];
        } else {
          assert operations.Keys == store.Keys;
        }
        return;
      }
      EnsureDataFile();
      fs := fs.(files := fs.files[TempFile := json.stringify(Obj(store))]);
      assert fs == WriteTemp(old(fs), json, store);
      fs := fs.(files := fs.files[DataFile := fs.files[TempFile]] - {TempFile});
    }
  }
}
