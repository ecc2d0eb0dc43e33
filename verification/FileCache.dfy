/**
 The language server's buffers: every open file has its text, version and tokens in the file cache,
 and its text again in the virtual file system that the compiler reads.
 */
module EditorBuffers {
  import opened Wrappers
  import opened TextPositions

  type Uri = string
  type Path = string

  datatype Entry<T> = Entry(code: string, ver: int, tokenStream: T)

  /** The file cache and the virtual file system together. */
  datatype Buffers<T> = Buffers(files: map<Uri, Entry<T>>, cache: map<Path, string>)

  /** A pair of URIs; one that cannot be parsed is absent. */
  datatype FileRename = FileRename(oldUri: Option<Uri>, newUri: Option<Uri>)

  datatype Op =
    | Update(uri: Uri, code: string, ver: Option<int>)
    | RangedUpdate(uri: Uri, range: Range, text: string)
    | IncrementalUpdate(uri: Uri, version: int, changes: seq<Change>)
    | Remove(uri: Uri)
    | RenameFiles(renames: seq<FileRename>)
    | Load(uri: Uri, onDisk: Option<string>)
    | Read(path: Path, onDisk: Option<string>)

  /** How an operation ends: normally, with a panic on a text edit, or with a panic on a missing file. */
  datatype Outcome<T> = Next(buffers: Buffers<T>) | EditPanic | RenamePanic

  /** What the cache is made with: the lexer, and where the file of a URI is. */
  datatype Config<!T> = Config(lex: string -> T, toPath: Uri -> Path)

  // ---- one operation ----

  predicate Stale<T>(files: map<Uri, Entry<T>>, uri: Uri, ver: Option<int>) {
    uri in files && ver.Some? && ver.value <= files[uri].ver
  }

  /** The text of a file is replaced in all places. */
  function Stored<T>(c: Config<T>, b: Buffers<T>, uri: Uri, code: string, ver: int): Buffers<T> {
    Buffers(b.files[uri := Entry(code, ver, c.lex(code))], b.cache[c.toPath(uri) := code])
  }

  function Updated<T>(c: Config<T>, b: Buffers<T>, uri: Uri, code: string, ver: Option<int>): Buffers<T> {
    if Stale(b.files, uri, ver) then b
    else Stored(c, b, uri, code, if ver.Some? then ver.value else if uri in b.files then b.files[uri].ver else 1)
  }

  function Removed<T>(c: Config<T>, b: Buffers<T>, uri: Uri): Buffers<T> {
    Buffers(b.files - {uri}, b.cache - {c.toPath(uri)})
  }

  /** The file system moves a text; that there is one is taken for granted. */
  function Moved<T>(c: Config<T>, b: Buffers<T>, rename: FileRename): Outcome<T> {
    if rename.oldUri.None? || rename.newUri.None? || rename.oldUri.value !in b.files then Next(b)
    else
      var (from, to) := (rename.oldUri.value, rename.newUri.value);
      if c.toPath(from) !in b.cache then RenamePanic
      else
        Next(Buffers((b.files - {from})[to := b.files[from]],
                     (b.cache - {c.toPath(from)})[c.toPath(to) := b.cache[c.toPath(from)]]))
  }

  function AllMoved<T>(c: Config<T>, b: Buffers<T>, renames: seq<FileRename>): Outcome<T>
    decreases |renames|
  {
    if renames == [] then Next(b)
    else
      var first := Moved(c, b, renames[0]);
      if first.Next? then AllMoved(c, first.buffers, renames[1..]) else first
  }

  function Filled<T>(b: Buffers<T>, path: Path, onDisk: Option<string>): Buffers<T> {
    if path in b.cache || onDisk.None? then b else b.(cache := b.cache[path := onDisk.value])
  }

  ghost function Applied<T>(c: Config<T>, b: Buffers<T>, op: Op): Outcome<T> {
    match op
    case Update(uri, code, ver) => Next(Updated(c, b, uri, code, ver))
    case RangedUpdate(uri, range, text) =>
      if uri !in b.files then Next(b)
      else
        var code := Spliced(b.files[uri].code, range, text);
        if code.None? then EditPanic else Next(Stored(c, b, uri, code.value, b.files[uri].ver))
    case IncrementalUpdate(uri, version, changes) =>
      if uri !in b.files || b.files[uri].ver >= version then Next(b)
      else
        var code := Folded(b.files[uri].code, changes);
        if code.None? then EditPanic else Next(Stored(c, b, uri, code.value, version))
    case Remove(uri) => Next(Removed(c, b, uri))
    case RenameFiles(renames) => AllMoved(c, b, renames)
    case Load(uri, onDisk) =>
      Next(if uri in b.files || onDisk.None? then b else Updated(c, b, uri, onDisk.value, None))
    case Read(path, onDisk) => Next(Filled(b, path, onDisk))
  }

  // ---- the objects ----

  /** The virtual file system: an in-memory text wins over the file on disk, which is read at most once. */
  class VirtualFileSystem {
    var cache: map<Path, string>

    constructor ()
      ensures cache == map[]
    {
      cache := map[];
    }

    method Update(path: Path, contents: string)
      modifies this
      ensures cache == old(cache)[path := contents]
    {
      cache := cache[path := contents];
    }

    method Remove(path: Path)
      modifies this
      ensures cache == old(cache) - {path}
    {
      cache := cache - {path};
    }

    method Rename(from: Path, to: Path)
      requires from in cache
      modifies this
      ensures cache == (old(cache) - {from})[to := old(cache)[from]]
    {
      var contents := cache[from];
      cache := cache - {from};
      cache := cache[to := contents];
    }

    method Read(path: Path, onDisk: Option<string>) returns (r: Option<string>)
      modifies this
      ensures r == if path in old(cache) then Some(old(cache)[path]) else onDisk
      ensures cache == if r.Some? then old(cache)[path := r.value] else old(cache)
    {
      if path in cache {
        return Some(cache[path]);
      }
      if onDisk.Some? {
        cache := cache[path := onDisk.value];
      }
      return onDisk;
    }
  }

  class FileCache<T> {
    const config: Config<T>
    const vfs: VirtualFileSystem
    var files: map<Uri, Entry<T>>

    ghost function Now(): Buffers<T>
      reads this, vfs
    {
      Buffers(files, vfs.cache)
    }

    constructor (config: Config<T>)
      ensures this.config == config && fresh(vfs) && Now() == Buffers(map[], map[])
    {
      this.config := config;
      this.vfs := new VirtualFileSystem();
      files := map[];
    }

    /** Replaces the text of a file, unless a version is given that is not newer. */
    method Update(uri: Uri, code: string, ver: Option<int>)
      modifies this, vfs
      ensures Next(Now()) == Applied(config, old(Now()), Op.Update(uri, code, ver))
    {
      if uri in files && ver.Some? && ver.value <= files[uri].ver {
        return;
      }
      var tokenStream := config.lex(code);
      var newVer := if ver.Some? then ver.value else if uri in files then files[uri].ver else 1;
      vfs.Update(config.toPath(uri), code);
      files := files[uri := Entry(code, newVer, tokenStream)];
    }

    /** Reads a file from disk if it is not open. */
    method LoadOnce(uri: Uri, onDisk: Option<string>)
      modifies this, vfs
      ensures Next(Now()) == Applied(config, old(Now()), Load(uri, onDisk))
    {
      if uri !in files && onDisk.Some? {
        Update(uri, onDisk.value, None);
      }
    }

    method RangedUpdate(uri: Uri, range: Range, text: string) returns (panicked: bool)
      modifies this, vfs
      ensures panicked <==> Applied(config, old(Now()), Op.RangedUpdate(uri, range, text)) == EditPanic
      ensures if panicked then Now() == old(Now()) else Next(Now()) == Applied(config, old(Now()), Op.RangedUpdate(uri, range, text))
    {
      if uri !in files {
        return false;
      }
      var entry := files[uri];
      var code := ReplaceRange(entry.code, range, text);
      if code.None? {
        return true;
      }
      var tokenStream := config.lex(code.value);
      vfs.Update(config.toPath(uri), code.value);
      files := files[uri := entry.(code := code.value, tokenStream := tokenStream)];
      return false;
    }

    /** Applies the changes of a notification to a local copy, and stores it in the end. */
    method IncrementalUpdate(uri: Uri, version: int, changes: seq<Change>) returns (panicked: bool)
      modifies this, vfs
      ensures panicked <==> Applied(config, old(Now()), Op.IncrementalUpdate(uri, version, changes)) == EditPanic
      ensures if panicked then Now() == old(Now()) else Next(Now()) == Applied(config, old(Now()), Op.IncrementalUpdate(uri, version, changes))
    {
      if uri !in files {
        return false;
      }
      if files[uri].ver >= version {
        return false;
      }
      var code := FoldChanges(files[uri].code, changes);
      if code.None? {
        return true;
      }
      vfs.Update(config.toPath(uri), code.value);
      var tokenStream := config.lex(code.value);
      files := files[uri := Entry(code.value, version, tokenStream)];
      return false;
    }

    method Remove(uri: Uri)
      modifies this, vfs
      ensures Next(Now()) == Applied(config, old(Now()), Op.Remove(uri))
    {
      vfs.Remove(config.toPath(uri));
      files := files - {uri};
    }

    /** On coherent buffers, renaming never asks the file system for a text it does not have. */
    method RenameFiles(renames: seq<FileRename>)
      requires Injective(config) && Coherent(config, Now())
      modifies this, vfs
      ensures Next(Now()) == Applied(config, old(Now()), Op.RenameFiles(renames))
      ensures Coherent(config, Now())
    {
      for i := 0 to |renames|
        invariant Coherent(config, Now())
        invariant AllMoved(config, Now(), renames[i..]) == AllMoved(config, old(Now()), renames)
      {
        MovedCoherent(config, Now(), renames[i]);
        assert renames[i..][1..] == renames[i + 1..];
        if renames[i].oldUri.None? || renames[i].newUri.None? {
          continue;
        }
        var from, to := renames[i].oldUri.value, renames[i].newUri.value;
        if from !in files {
          continue;
        }
        var entry := files[from];
        files := files - {from};
        vfs.Rename(config.toPath(from), config.toPath(to));
        files := files[to := entry];
      }
    }
  }

  // ---- the three views agree ----

  ghost predicate Injective<T>(c: Config<T>) {
    forall u, v :: c.toPath(u) == c.toPath(v) ==> u == v
  }

  /** For every file, the tokens are those of its text, and the file system has the same text. */
  ghost predicate Coherent<T>(c: Config<T>, b: Buffers<T>) {
    forall u :: u in b.files ==>
      && b.files[u].tokenStream == c.lex(b.files[u].code)
      && c.toPath(u) in b.cache && b.cache[c.toPath(u)] == b.files[u].code
  }

  lemma StoredCoherent<T>(c: Config<T>, b: Buffers<T>, uri: Uri, code: string, ver: int)
    requires Injective(c) && Coherent(c, b)
    ensures Coherent(c, Stored(c, b, uri, code, ver))
  {
  }

  lemma MovedCoherent<T>(c: Config<T>, b: Buffers<T>, rename: FileRename)
    requires Injective(c) && Coherent(c, b)
    ensures var r := Moved(c, b, rename); r.Next? && Coherent(c, r.buffers)
  {
    var after := Moved(c, b, rename).buffers;
    if rename.oldUri.Some? && rename.newUri.Some? && rename.oldUri.value in b.files {
      var (from, to) := (rename.oldUri.value, rename.newUri.value);
      forall u | u in after.files
        ensures after.files[u].tokenStream == c.lex(after.files[u].code)
        ensures c.toPath(u) in after.cache && after.cache[c.toPath(u)] == after.files[u].code
      {
        assert c.toPath(u) == c.toPath(to) ==> u == to;
        assert c.toPath(u) == c.toPath(from) ==> u == from;
      }
    }
  }

  lemma RemovedCoherent<T>(c: Config<T>, b: Buffers<T>, uri: Uri)
    requires Injective(c) && Coherent(c, b)
    ensures Coherent(c, Removed(c, b, uri))
  {
  }

  lemma FilledCoherent<T>(c: Config<T>, b: Buffers<T>, path: Path, onDisk: Option<string>)
    requires Coherent(c, b)
    ensures Coherent(c, Filled(b, path, onDisk))
  {
  }

  lemma {:induction false} AllMovedCoherent<T>(c: Config<T>, b: Buffers<T>, renames: seq<FileRename>)
    requires Injective(c) && Coherent(c, b)
    ensures var r := AllMoved(c, b, renames); r.Next? && Coherent(c, r.buffers)
    decreases |renames|
  {
    if renames != [] {
      MovedCoherent(c, b, renames[0]);
      AllMovedCoherent(c, Moved(c, b, renames[0]).buffers, renames[1..]);
    }
  }

  lemma AppliedCoherent<T>(c: Config<T>, b: Buffers<T>, op: Op)
    requires Injective(c) && Coherent(c, b)
    ensures var r := Applied(c, b, op); r != RenamePanic && (r.Next? ==> Coherent(c, r.buffers))
  {
    hide Spliced, Folded, Stored, Coherent, Injective;
    match op
    case Update(uri, code, ver) =>
      StoredCoherent(c, b, uri, code, if ver.Some? then ver.value else if uri in b.files then b.files[uri].ver else 1);
    case RangedUpdate(uri, range, text) =>
      if Applied(c, b, op).Next? && uri in b.files {
        StoredCoherent(c, b, uri, Spliced(b.files[uri].code, range, text).value, b.files[uri].ver);
      }
    case IncrementalUpdate(uri, version, changes) =>
      if Applied(c, b, op).Next? && uri in b.files && b.files[uri].ver < version {
        StoredCoherent(c, b, uri, Folded(b.files[uri].code, changes).value, version);
      }
    case Remove(uri) => RemovedCoherent(c, b, uri);
    case RenameFiles(renames) => AllMovedCoherent(c, b, renames);
    case Load(uri, onDisk) =>
      if onDisk.Some? {
        StoredCoherent(c, b, uri, onDisk.value, 1);
      }
    case Read(path, onDisk) => FilledCoherent(c, b, path, onDisk);
  }

  /** Operations one after the other, up to a panic. */
  ghost function Run<T>(c: Config<T>, b: Buffers<T>, ops: seq<Op>): Outcome<T>
    decreases |ops|
  {
    if ops == [] then Next(b)
    else
      var first := Applied(c, b, ops[0]);
      if first.Next? then Run(c, first.buffers, ops[1..]) else first
  }

  /** Every run of operations keeps the three views together, and no rename panics. */
  lemma {:induction false} RunCoherent<T>(c: Config<T>, b: Buffers<T>, ops: seq<Op>)
    requires Injective(c) && Coherent(c, b)
    ensures var r := Run(c, b, ops); r != RenamePanic && (r.Next? ==> Coherent(c, r.buffers))
    decreases |ops|
  {
    if ops != [] {
      AppliedCoherent(c, b, ops[0]);
      if Applied(c, b, ops[0]).Next? {
        RunCoherent(c, Applied(c, b, ops[0]).buffers, ops[1..]);
      }
    }
  }

  /** Reading a file that is open gives its edited text, whatever is on disk. */
  lemma ReadsEditedText<T>(c: Config<T>, ops: seq<Op>, uri: Uri, onDisk: Option<string>)
    requires Injective(c)
    requires var r := Run(c, Buffers(map[], map[]), ops); r.Next? && uri in r.buffers.files
    ensures var b := Run(c, Buffers(map[], map[]), ops).buffers;
            && c.toPath(uri) in b.cache && b.cache[c.toPath(uri)] == b.files[uri].code
            && Applied(c, b, Read(c.toPath(uri), onDisk)) == Next(b)
  {
    RunCoherent(c, Buffers(map[], map[]), ops);
  }

  ghost predicate RenamesNeverPanic<T>(c: Config<T>) {
    forall ops: seq<Op> :: !Run(c, Buffers(map[], map[]), ops).RenamePanic?
  }

  /** Different URIs must have different paths: otherwise a run makes a rename panic. */
  lemma RenamesNeverPanicIff<T>(c: Config<T>)
    ensures RenamesNeverPanic(c) <==> Injective(c)
  {
    var none: Buffers<T> := Buffers(map[], map[]);
    if Injective(c) {
      forall ops: seq<Op>
        ensures !Run(c, none, ops).RenamePanic?
      {
        RunCoherent(c, none, ops);
      }
    } else {
      var u, v :| c.toPath(u) == c.toPath(v) && u != v;
      var rename := [FileRename(Some(v), Some(v))];
      var ops := [Update(u, "", None), Update(v, "", None), Remove(u), RenameFiles(rename)];
      assert ops[1..] == [Update(v, "", None), Remove(u), RenameFiles(rename)];
      assert ops[1..][1..] == [Remove(u), RenameFiles(rename)];
      assert ops[1..][1..][1..] == [RenameFiles(rename)];
      var one := Updated(c, none, u, "", None);
      var two := Updated(c, one, v, "", None);
      var three := Removed(c, two, u);
      assert v in three.files && c.toPath(v) !in three.cache;
      assert Applied(c, three, RenameFiles(rename)) == RenamePanic;
      assert Run(c, three, [RenameFiles(rename)]) == RenamePanic;
      assert Run(c, two, [Remove(u), RenameFiles(rename)]) == RenamePanic;
      assert Run(c, one, [Update(v, "", None), Remove(u), RenameFiles(rename)]) == RenamePanic;
      assert Run(c, Buffers(map[], map[]), ops).RenamePanic?;
    }
  }

  // ---- the client's documents ----

  datatype Document = Document(text: string, version: int)

  /** The text after some changes: by the protocol, or as the server edits it. */
  ghost function Edited(byProtocol: bool, text: string, changes: seq<Change>): string {
    if byProtocol then ProtocolFolded(text, changes)
    else
      var r := Folded(text, changes);
      if r.Some? then r.value else text
  }

  /**
   The document that is open under a URI after some operations, told by their history: what the last operation did to it,
   and what it was before.
   */
  ghost function DocumentAfter(byProtocol: bool, ops: seq<Op>, uri: Uri): Option<Document>
    decreases |ops|, 0
  {
    if ops == [] then None
    else
      var before := ops[..|ops| - 1];
      var d := DocumentAfter(byProtocol, before, uri);
      match ops[|ops| - 1]
      case Update(u, code, ver) =>
        if u != uri || (d.Some? && ver.Some? && ver.value <= d.value.version) then d
        else Some(Document(code, if ver.Some? then ver.value else if d.Some? then d.value.version else 1))
      case RangedUpdate(u, range, text) =>
        if u != uri || d.None? then d
        else Some(Document(Edited(byProtocol, d.value.text, [Change(Some(range), text)]), d.value.version))
      case IncrementalUpdate(u, version, changes) =>
        if u != uri || d.None? || version <= d.value.version then d
        else Some(Document(Edited(byProtocol, d.value.text, changes), version))
      case Remove(u) => if u == uri then None else d
      case RenameFiles(renames) => DocumentRenamed(byProtocol, before, renames, uri)
      case Load(u, onDisk) => if u == uri && d.None? && onDisk.Some? then Some(Document(onDisk.value, 1)) else d
      case Read(_, _) => d
  }

  /** The same after some renames: the last of an open file decides what is under its two names. */
  ghost function DocumentRenamed(byProtocol: bool, ops: seq<Op>, renames: seq<FileRename>, uri: Uri): Option<Document>
    decreases |ops|, |renames| + 1
  {
    if renames == [] then DocumentAfter(byProtocol, ops, uri)
    else
      var n := |renames| - 1;
      var (from, to) := (renames[n].oldUri, renames[n].newUri);
      if from.None? || to.None? || (uri != from.value && uri != to.value) then DocumentRenamed(byProtocol, ops, renames[..n], uri)
      else
        var moved := DocumentRenamed(byProtocol, ops, renames[..n], from.value);
        if moved.None? then DocumentRenamed(byProtocol, ops, renames[..n], uri)
        else if uri == to.value then moved
        else None
  }

  /** The buffers have the document in all three views, or do not have the file. */
  ghost predicate Holds<T>(c: Config<T>, b: Buffers<T>, uri: Uri, d: Option<Document>) {
    if d.None? then uri !in b.files
    else
      && uri in b.files && b.files[uri] == Entry(d.value.text, d.value.version, c.lex(d.value.text))
      && c.toPath(uri) in b.cache && b.cache[c.toPath(uri)] == d.value.text
  }

  ghost predicate HoldsAll<T>(c: Config<T>, b: Buffers<T>, ops: seq<Op>) {
    forall uri :: Holds(c, b, uri, DocumentAfter(false, ops, uri))
  }

  lemma {:induction false} RunLast<T>(c: Config<T>, b: Buffers<T>, ops: seq<Op>)
    requires ops != []
    ensures var n := |ops| - 1;
            var r := Run(c, b, ops[..n]);
            Run(c, b, ops) == if r.Next? then Applied(c, r.buffers, ops[n]) else r
    decreases |ops|
  {
    hide Applied;
    var n := |ops| - 1;
    if n == 0 {
      assert ops[1..] == [] && ops[..0] == [];
    } else {
      assert ops[..n][0] == ops[0] && ops[..n][1..] == ops[1..][..n - 1];
      var first := Applied(c, b, ops[0]);
      if first.Next? {
        RunLast(c, first.buffers, ops[1..]);
      }
    }
  }

  lemma {:induction false} AllMovedLast<T>(c: Config<T>, b: Buffers<T>, renames: seq<FileRename>)
    requires renames != []
    ensures var n := |renames| - 1;
            var r := AllMoved(c, b, renames[..n]);
            AllMoved(c, b, renames) == if r.Next? then Moved(c, r.buffers, renames[n]) else r
    decreases |renames|
  {
    hide Moved;
    var n := |renames| - 1;
    if n == 0 {
      assert renames[1..] == [] && renames[..0] == [];
    } else {
      assert renames[..n][0] == renames[0] && renames[..n][1..] == renames[1..][..n - 1];
      var first := Moved(c, b, renames[0]);
      if first.Next? {
        AllMovedLast(c, first.buffers, renames[1..]);
      }
    }
  }

  /** Storing a text under one URI is seen there and nowhere else. */
  lemma StoredHolds<T>(c: Config<T>, b: Buffers<T>, uri: Uri, code: string, ver: int, other: Uri, d: Option<Document>)
    requires Injective(c) && Holds(c, b, other, d)
    ensures Holds(c, Stored(c, b, uri, code, ver), other, if other == uri then Some(Document(code, ver)) else d)
  {
    assert c.toPath(other) == c.toPath(uri) ==> other == uri;
  }

  lemma RemovedHolds<T>(c: Config<T>, b: Buffers<T>, uri: Uri, other: Uri, d: Option<Document>)
    requires Injective(c) && Holds(c, b, other, d)
    ensures Holds(c, Removed(c, b, uri), other, if other == uri then None else d)
  {
    assert c.toPath(other) == c.toPath(uri) ==> other == uri;
  }

  /** An open file that is renamed is found under its new name only, with its text and version. */
  lemma MovedHolds<T>(c: Config<T>, b: Buffers<T>, from: Uri, to: Uri, moved: Document, other: Uri, d: Option<Document>)
    requires Injective(c) && Holds(c, b, from, Some(moved)) && Holds(c, b, other, d)
    ensures var r := Moved(c, b, FileRename(Some(from), Some(to)));
            r.Next? && Holds(c, r.buffers, other, if other == to then Some(moved) else if other == from then None else d)
  {
    assert c.toPath(other) == c.toPath(to) ==> other == to;
    assert c.toPath(other) == c.toPath(from) ==> other == from;
  }

  lemma {:induction false} RenamedHolds<T>(c: Config<T>, b: Buffers<T>, ops: seq<Op>, renames: seq<FileRename>, uri: Uri)
    requires Injective(c) && AllMoved(c, b, renames).Next?
    requires HoldsAll(c, b, ops)
    ensures Holds(c, AllMoved(c, b, renames).buffers, uri, DocumentRenamed(false, ops, renames, uri))
    decreases |renames|
  {
    hide Holds, Injective, DocumentAfter;
    if renames != [] {
      var n := |renames| - 1;
      AllMovedLast(c, b, renames);
      var r := AllMoved(c, b, renames[..n]);
      RenamedHolds(c, b, ops, renames[..n], uri);
      if renames[n].oldUri.Some? && renames[n].newUri.Some? {
        var from, to := renames[n].oldUri.value, renames[n].newUri.value;
        RenamedHolds(c, b, ops, renames[..n], from);
        var moved := DocumentRenamed(false, ops, renames[..n], from);
        OpenIff(c, r.buffers, from, moved);
        if moved.Some? {
          MovedHolds(c, r.buffers, from, to, moved.value, uri, DocumentRenamed(false, ops, renames[..n], uri));
        }
      }
    }
  }

  lemma OpenIff<T>(c: Config<T>, b: Buffers<T>, uri: Uri, d: Option<Document>)
    requires Holds(c, b, uri, d)
    ensures uri in b.files <==> d.Some?
    ensures d.Some? ==> b.files[uri].code == d.value.text && b.files[uri].ver == d.value.version
  {
  }

  lemma FilledHolds<T>(c: Config<T>, b: Buffers<T>, path: Path, onDisk: Option<string>, uri: Uri, d: Option<Document>)
    requires Holds(c, b, uri, d)
    ensures Holds(c, Filled(b, path, onDisk), uri, d)
  {
  }

  lemma AppliedHolds<T>(c: Config<T>, b: Buffers<T>, ops: seq<Op>, uri: Uri)
    requires Injective(c) && ops != [] && Applied(c, b, ops[|ops| - 1]).Next?
    requires HoldsAll(c, b, ops[..|ops| - 1])
    ensures Holds(c, Applied(c, b, ops[|ops| - 1]).buffers, uri, DocumentAfter(false, ops, uri))
  {
    hide Holds, Injective, Spliced, Folded, AllMoved, DocumentRenamed, Stored, Removed, Filled;
    var before := ops[..|ops| - 1];
    var d := DocumentAfter(false, before, uri);
    OpenIff(c, b, uri, d);
    match ops[|ops| - 1]
    case Update(u, code, ver) =>
      StoredHolds(c, b, u, code, if ver.Some? then ver.value else if u in b.files then b.files[u].ver else 1, uri, d);
    case RangedUpdate(u, range, text) =>
      if u in b.files {
        OneChange(b.files[u].code, range, text);
        StoredHolds(c, b, u, Spliced(b.files[u].code, range, text).value, b.files[u].ver, uri, d);
      }
    case IncrementalUpdate(u, version, changes) =>
      if u in b.files && b.files[u].ver < version {
        StoredHolds(c, b, u, Folded(b.files[u].code, changes).value, version, uri, d);
      }
    case Remove(u) => RemovedHolds(c, b, u, uri, d);
    case RenameFiles(renames) => RenamedHolds(c, b, before, renames, uri);
    case Load(u, onDisk) =>
      if onDisk.Some? {
        StoredHolds(c, b, u, onDisk.value, 1, uri, d);
      }
    case Read(path, onDisk) => FilledHolds(c, b, path, onDisk, uri, d);
  }

  lemma OneChange(src: string, range: Range, text: string)
    ensures Folded(src, [Change(Some(range), text)]) == Spliced(src, range, text)
  {
    hide Spliced;
    assert [Change(Some(range), text)][1..] == [];
  }

  /**
   After every run, a file is open under a URI exactly if its history says so, with that text and version,
   and the compiler reads the same text.
   */
  lemma {:induction false} BuffersFollowHistory<T>(c: Config<T>, ops: seq<Op>, uri: Uri)
    requires Injective(c) && Run(c, Buffers(map[], map[]), ops).Next?
    ensures Holds(c, Run(c, Buffers(map[], map[]), ops).buffers, uri, DocumentAfter(false, ops, uri))
    decreases |ops|
  {
    if ops != [] {
      hide Holds, Applied, Injective, DocumentAfter;
      var none: Buffers<T> := Buffers(map[], map[]);
      RunLast(c, none, ops);
      var before := ops[..|ops| - 1];
      var b := Run(c, none, before).buffers;
      forall u
        ensures Holds(c, b, u, DocumentAfter(false, before, u))
      {
        BuffersFollowHistory(c, before, u);
      }
      AppliedHolds(c, b, ops, uri);
    }
  }

  /** After a file was closed or renamed, the file system has no text under its old name. */
  lemma OldNameIsGone<T>(c: Config<T>, b: Buffers<T>, from: Uri, to: Uri)
    requires Injective(c)
    ensures from !in Removed(c, b, from).files && c.toPath(from) !in Removed(c, b, from).cache
    ensures from != to && from in b.files && c.toPath(from) in b.cache ==>
              var r := Moved(c, b, FileRename(Some(from), Some(to)));
              r.Next? && from !in r.buffers.files && c.toPath(from) !in r.buffers.cache
  {
  }

  /** Whenever a notification takes effect, its ranges are of the text it is meant for, and a whole text repeats it. */
  ghost predicate Conforms(ops: seq<Op>)
    decreases |ops|
  {
    ops == [] ||
    (var n := |ops| - 1;
     && Conforms(ops[..n])
     && (ops[n].IncrementalUpdate? ==> ConformingChanges(ops[..n], ops[n].uri, ops[n].changes))
     && (ops[n].RangedUpdate? ==> ConformingChanges(ops[..n], ops[n].uri, [Change(Some(ops[n].range), ops[n].text)])))
  }

  ghost predicate ConformingChanges(ops: seq<Op>, uri: Uri, changes: seq<Change>) {
    var d := DocumentAfter(true, ops, uri);
    d.Some? ==> ValidRanges(d.value.text, changes) && OnlyRepeats(d.value.text, changes)
  }

  lemma ConformingEdit(text: string, changes: seq<Change>)
    requires ValidRanges(text, changes) && OnlyRepeats(text, changes)
    ensures Edited(false, text, changes) == Edited(true, text, changes)
  {
    hide ValidRanges, OnlyRepeats, Folded, ProtocolFolded;
    FoldMeetsProtocolIff(text, changes);
    assert changes[..|changes|] == changes;
  }

  ghost predicate SameDocument(ops: seq<Op>, uri: Uri) {
    DocumentAfter(false, ops, uri) == DocumentAfter(true, ops, uri)
  }

  lemma {:induction false} ConformingRenames(ops: seq<Op>, renames: seq<FileRename>, uri: Uri)
    requires forall u :: SameDocument(ops, u)
    ensures DocumentRenamed(false, ops, renames, uri) == DocumentRenamed(true, ops, renames, uri)
    decreases |renames|
  {
    hide DocumentAfter;
    if renames == [] {
      assert SameDocument(ops, uri);
    } else {
      var n := |renames| - 1;
      ConformingRenames(ops, renames[..n], uri);
      if renames[n].oldUri.Some? {
        ConformingRenames(ops, renames[..n], renames[n].oldUri.value);
      }
    }
  }

  /** A client that keeps to this has, under every name and at any time, the text the server has. */
  lemma {:induction false} HistoryFollowsProtocol(ops: seq<Op>, uri: Uri)
    requires Conforms(ops)
    ensures DocumentAfter(false, ops, uri) == DocumentAfter(true, ops, uri)
    decreases |ops|
  {
    hide ValidRanges, OnlyRepeats, Edited, DocumentRenamed;
    if ops != [] {
      var n := |ops| - 1;
      HistoryFollowsProtocol(ops[..n], uri);
      var d := DocumentAfter(true, ops[..n], uri);
      match ops[n]
      case RangedUpdate(u, range, text) =>
        if u == uri && d.Some? {
          ConformingEdit(d.value.text, [Change(Some(range), text)]);
        }
      case IncrementalUpdate(u, version, changes) =>
        if u == uri && d.Some? {
          ConformingEdit(d.value.text, changes);
        }
      case RenameFiles(renames) =>
        forall u
          ensures SameDocument(ops[..n], u)
        {
          HistoryFollowsProtocol(ops[..n], u);
        }
        ConformingRenames(ops[..n], renames, uri);
      case _ =>
    }
  }

  // ---- versions ----

  /** Over any run without removals and renames, files stay open and no version goes back. */
  lemma {:induction false} VersionsNeverDecrease<T>(c: Config<T>, b: Buffers<T>, ops: seq<Op>, uri: Uri)
    requires forall op :: op in ops ==> !op.Remove? && !op.RenameFiles?
    requires uri in b.files && Run(c, b, ops).Next?
    ensures var after := Run(c, b, ops).buffers.files; uri in after && after[uri].ver >= b.files[uri].ver
    decreases |ops|
  {
    hide Spliced, Folded;
    if ops != [] {
      var next := Applied(c, b, ops[0]).buffers;
      assert ops[0] in ops;
      assert uri in next.files && next.files[uri].ver >= b.files[uri].ver;
      VersionsNeverDecrease(c, next, ops[1..], uri);
    }
  }

  /** A notification changes something only if its version is newer, and then the file has that version. */
  lemma StaleChangesNothing<T>(c: Config<T>, b: Buffers<T>, uri: Uri, version: int, code: string, changes: seq<Change>)
    requires uri in b.files
    ensures version <= b.files[uri].ver ==>
              && Applied(c, b, Update(uri, code, Some(version))) == Next(b)
              && Applied(c, b, IncrementalUpdate(uri, version, changes)) == Next(b)
    ensures version > b.files[uri].ver ==>
              && Applied(c, b, Update(uri, code, Some(version))).buffers.files[uri].ver == version
              && var r := Applied(c, b, IncrementalUpdate(uri, version, changes));
                 r.Next? ==> r.buffers.files[uri].ver == version
  {
  }
}
