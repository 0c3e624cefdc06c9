/**
 * The file-backed metadata store (fs-storage/src/backends/local_json.rs) against the
 * string-keyed map of fs-storage/src/backends/memory.rs:73-98. A file system is a map from
 * paths, as lists of components below the root, to contents.
 */
module FileBackend {
  import opened Basics
  import opened MetaKeys

  type Path = seq<string>
  type Files = map<Path, seq<byte>>
  type Memory = map<string, seq<byte>>

  // --- Strings ---

  function StripPrefix(s: string, prefix: string): Option<string> {
    if prefix <= s then Some(s[|prefix|..]) else None
  }

  predicate EndsWith(s: string, suffix: string) {
    |suffix| <= |s| && s[|s| - |suffix|..] == suffix
  }

  const JSON := ".json"

  /** `strip_suffix(".json")` where it applies. */
  function Stem(file: string): string {
    if EndsWith(file, JSON) then file[..|file| - |JSON|] else file
  }

  // --- Keys and where they live ---

  /** A name that is one path component of its own. */
  predicate Plain(name: string) {
    '/' !in name && name != "" && name != "." && name != ".."
  }

  /** `get_meta_file_path` for a name that is one path component. */
  function MetaPath(key: string): Path {
    var manifest, tag, layer, build, index :=
      StripPrefix(key, "manifests/"), StripPrefix(key, "tags/"), StripPrefix(key, "layers/"),
      StripPrefix(key, "builds/"), StripPrefix(key, "index/");
    if manifest.Some? then ["manifests", manifest.value + JSON]
    else if tag.Some? then ["refs", "tags", tag.value]
    else if layer.Some? then ["meta", "layers", layer.value + JSON]
    else if build.Some? then ["meta", "builds", build.value + JSON]
    else if index.Some? then ["meta", "index", index.value]
    else ["meta", key]
  }

  function Dir(ns: Namespace): Path {
    match ns
    case Manifests => ["manifests"]
    case Tags => ["refs", "tags"]
    case Layers => ["meta", "layers"]
    case Builds => ["meta", "builds"]
    case Index => ["meta", "index"]
  }

  function FileName(key: MetaKey): string {
    if key.ns.Tags? || key.ns.Index? then key.name else key.name + JSON
  }

  function PathOf(key: MetaKey): Path {
    Dir(key.ns) + [FileName(key)]
  }

  lemma FirstLetter(key: MetaKey)
    ensures Render(key) != ""
    ensures Render(key)[0] == match key.ns
      case Manifests => 'm' case Tags => 't' case Layers => 'l' case Builds => 'b' case Index => 'i'
    ensures StripPrefix(Render(key), Prefix(key.ns)) == Some(key.name)
  {
    assert Render(key)[|Prefix(key.ns)|..] == key.name;
  }

  lemma {:induction false} MetaPathOf(key: MetaKey)
    ensures MetaPath(Render(key)) == PathOf(key)
  {
    FirstLetter(key);
    var s := Render(key);
    match key.ns
    case Manifests =>
    case Tags => assert !("manifests/" <= s);
    case Layers => assert !("manifests/" <= s) && !("tags/" <= s);
    case Builds => assert !("manifests/" <= s) && !("tags/" <= s) && !("layers/" <= s);
    case Index => assert !("manifests/" <= s) && !("tags/" <= s) && !("layers/" <= s) && !("builds/" <= s);
  }

  /** Where each key lives, spelled out. */
  lemma {:induction false} PathText(key: MetaKey)
    ensures MetaPath(Render(key)) == match key.ns
      case Manifests => ["manifests", key.name + ".json"]
      case Tags => ["refs", "tags", key.name]
      case Layers => ["meta", "layers", key.name + ".json"]
      case Builds => ["meta", "builds", key.name + ".json"]
      case Index => ["meta", "index", key.name]
  {
    hide MetaPath;
    MetaPathOf(key);
  }

  /** Rendered keys are distinct, and a prefix selects exactly its namespace. */
  lemma {:induction false} RenderInjective(a: MetaKey, b: MetaKey)
    ensures Render(a) == Render(b) <==> a == b
    ensures Prefix(a.ns) <= Render(b) <==> a.ns == b.ns
  {
    FirstLetter(a);
    FirstLetter(b);
    if Prefix(a.ns) <= Render(b) {
      assert Prefix(a.ns)[0] == Render(b)[0] == Render(a)[0];
    }
    if a.ns == b.ns {
      assert Prefix(a.ns) <= Render(b);
    }
  }

  lemma {:induction false} PathInjective(a: MetaKey, b: MetaKey)
    ensures PathOf(a) == PathOf(b) <==> a == b
    ensures PathOf(a)[..|PathOf(a)| - 1] == Dir(a.ns)
  {
    var p, q := PathOf(a), PathOf(b);
    assert p[..|p| - 1] == Dir(a.ns) && p[|p| - 1] == FileName(a);
    assert q[..|q| - 1] == Dir(b.ns) && q[|q| - 1] == FileName(b);
    if p == q {
      assert Dir(a.ns) == Dir(b.ns);
      assert a.ns == b.ns by {
        DirInjective(a.ns, b.ns);
      }
      if a.ns != Tags && a.ns != Index {
        assert a.name == FileName(a)[..|FileName(a)| - 5] && b.name == FileName(b)[..|FileName(b)| - 5];
      }
    }
  }

  lemma DirInjective(a: Namespace, b: Namespace)
    requires Dir(a) == Dir(b)
    ensures a == b
  {
    assert |Dir(a)| == |Dir(b)|;
    assert Dir(a)[|Dir(a)| - 1] == Dir(b)[|Dir(b)| - 1];
    assert "manifests" != "tags" && "layers" != "builds" && "tags" != "layers";
    var m, t, l, b', i := "manifests", "tags", "layers", "builds", "index";
    assert m[0] == 'm' && t[0] == 't' && l[0] == 'l' && b'[0] == 'b' && i[0] == 'i';
  }

  // --- The operations ---

  predicate IsScratch(p: Path) {
    |p| > 0 && (p[0] == "tmp" || p[0] == "objects")
  }

  /** Write under a fresh temporary name, then rename over the final path. */
  function Put(files: Files, key: string, value: seq<byte>, tmp: string): Files {
    (files[["tmp", tmp] := value] - {["tmp", tmp]})[MetaPath(key) := value]
  }

  function Get(files: Files, key: string): Option<seq<byte>> {
    if MetaPath(key) in files then Some(files[MetaPath(key)]) else None
  }

  function Delete(files: Files, key: string): Files {
    files - {MetaPath(key)}
  }

  predicate InDir(p: Path, dir: Path) {
    |p| == |dir| + 1 && p[..|dir|] == dir
  }

  /** The keys `list_meta` reports for a namespace, as a set. */
  function Listed(files: Files, ns: Namespace): set<string> {
    ListedFrom(files.Keys, ns)
  }

  function ListedFrom(paths: set<Path>, ns: Namespace): set<string> {
    set p | p in paths && InDir(p, Dir(ns)) :: Prefix(ns) + Stem(p[|p| - 1])
  }

  /** Opening the backend removes what is left in the temporary directory. */
  function Reopened(files: Files): Files {
    files - (set p | p in files.Keys && InDir(p, ["tmp"]))
  }

  function MemoryListed(mem: Memory, ns: Namespace): set<string> {
    set s | s in mem.Keys && Prefix(ns) <= s
  }

  /** Opening takes exactly the files directly under the temporary directory. */
  lemma {:induction false} ReopenedExactly(files: Files, p: Path)
    ensures p in Reopened(files) <==> p in files && !(|p| == 2 && p[0] == "tmp")
    ensures p in Reopened(files) ==> Reopened(files)[p] == files[p]
  {
    if |p| == 2 {
      assert p[..1] == [p[0]];
      assert p[0] == "tmp" <==> p[..1] == ["tmp"];
    }
  }

  /** A put changes exactly the key's file, and leaves no temporary one. */
  lemma {:induction false} PutExactly(files: Files, key: string, value: seq<byte>, tmp: string, p: Path)
    ensures var after := Put(files, key, value, tmp);
            && MetaPath(key) in after && after[MetaPath(key)] == value && ["tmp", tmp] !in after
            && (p != MetaPath(key) && p != ["tmp", tmp] ==>
                  (p in after <==> p in files) && (p in files ==> after[p] == files[p]))
  {
    assert MetaPath(key)[0] in {"manifests", "refs", "meta"};
    var m, r, e, t := "manifests", "refs", "meta", "tmp";
    assert |m| == 9 && |r| == 4 && |e| == 4 && |t| == 3;
    assert MetaPath(key)[0] != ["tmp", tmp][0];
  }

  // --- Refinement ---

  ghost predicate Issued(s: string) {
    exists key: MetaKey :: Plain(key.name) && Render(key) == s
  }

  ghost predicate Placed(p: Path) {
    exists key: MetaKey :: Plain(key.name) && PathOf(key) == p
  }

  function Lookup(mem: Memory, s: string): Option<seq<byte>> {
    if s in mem then Some(mem[s]) else None
  }

  /** The files hold exactly the documents of `mem`, besides scratch and blob files. */
  ghost predicate Represents(files: Files, mem: Memory) {
    && (forall key: MetaKey :: Plain(key.name) ==> Get(files, Render(key)) == Lookup(mem, Render(key)))
    && (forall s :: s in mem ==> Issued(s))
    && (forall p :: p in files ==> IsScratch(p) || Placed(p))
  }

  lemma {:induction false} PlacedIsNotScratch(key: MetaKey, p: Path)
    requires IsScratch(p)
    ensures PathOf(key) != p
  {
    var m, r, e, t, o := "manifests", "refs", "meta", "tmp", "objects";
    assert |m| == 9 && |r| == 4 && |e| == 4 && |t| == 3 && |o| == 7;
  }

  lemma {:induction false} PutRefines(files: Files, mem: Memory, key: MetaKey, value: seq<byte>, tmp: string)
    requires Represents(files, mem) && Plain(key.name)
    ensures Represents(Put(files, Render(key), value, tmp), mem[Render(key) := value])
  {
    hide Prefix, Dir, StripPrefix;
    var files', mem' := Put(files, Render(key), value, tmp), mem[Render(key) := value];
    MetaPathOf(key);
    forall k: MetaKey | Plain(k.name)
      ensures Get(files', Render(k)) == Lookup(mem', Render(k))
    {
      MetaPathOf(k);
      RenderInjective(k, key);
      PathInjective(k, key);
      PlacedIsNotScratch(k, ["tmp", tmp]);
      assert Get(files, Render(k)) == Lookup(mem, Render(k));
    }
    assert Issued(Render(key)) && Placed(PathOf(key));
  }

  lemma {:induction false} DeleteRefines(files: Files, mem: Memory, key: MetaKey)
    requires Represents(files, mem) && Plain(key.name)
    ensures Represents(Delete(files, Render(key)), mem - {Render(key)})
  {
    hide Prefix, Dir, StripPrefix;
    MetaPathOf(key);
    forall k: MetaKey | Plain(k.name)
      ensures Get(Delete(files, Render(key)), Render(k)) == Lookup(mem - {Render(key)}, Render(k))
    {
      MetaPathOf(k);
      RenderInjective(k, key);
      PathInjective(k, key);
      assert Get(files, Render(k)) == Lookup(mem, Render(k));
    }
  }

  /** The name under which listing reports a key. */
  function ListedName(key: MetaKey): string {
    Stem(FileName(key))
  }

  lemma {:induction false} StemOfJson(name: string)
    ensures Stem(name + JSON) == name
  {
    assert (name + JSON)[|name|..] == JSON;
    assert (name + JSON)[..|name|] == name;
  }

  lemma {:induction false} NotScratchDir(p: Path, ns: Namespace)
    requires InDir(p, Dir(ns))
    ensures !IsScratch(p)
  {
    assert p[0] == p[..|Dir(ns)|][0] == Dir(ns)[0];
    var m, r, e, t, o := "manifests", "refs", "meta", "tmp", "objects";
    assert |m| == 9 && |r| == 4 && |e| == 4 && |t| == 3 && |o| == 7;
  }

  /** A stored key of the namespace is reported as `s`. */
  ghost predicate ReportedAs(mem: Memory, ns: Namespace, key: MetaKey, s: string) {
    key.ns == ns && Plain(key.name) && Render(key) in mem && s == Prefix(ns) + ListedName(key)
  }

  lemma {:induction false} ListedIsStored(files: Files, mem: Memory, ns: Namespace, s: string) returns (key: MetaKey)
    requires Represents(files, mem) && s in Listed(files, ns)
    ensures ReportedAs(mem, ns, key, s)
  {
    hide MetaPath, Stem, Prefix, Render, EndsWith;
    var p :| p in files.Keys && InDir(p, Dir(ns)) && s == Prefix(ns) + Stem(p[|p| - 1]);
    NotScratchDir(p, ns);
    assert Placed(p);
    key :| Plain(key.name) && PathOf(key) == p;
    PathInjective(key, key);
    assert p[..|p| - 1] == Dir(ns);
    DirInjective(key.ns, ns);
    MetaPathOf(key);
    assert Get(files, Render(key)) == Lookup(mem, Render(key));
  }

  lemma {:induction false} StoredIsListed(files: Files, mem: Memory, ns: Namespace, key: MetaKey, s: string)
    requires Represents(files, mem) && ReportedAs(mem, ns, key, s)
    ensures s in Listed(files, ns)
  {
    hide MetaPath, Stem;
    MetaPathOf(key);
    assert Get(files, Render(key)) == Lookup(mem, Render(key));
    var p := PathOf(key);
    PathInjective(key, key);
    assert p in files.Keys && InDir(p, Dir(ns)) && p[|p| - 1] == FileName(key);
  }

  /** Only bare file names, those of tags and index entries, can lose a suffix of their own. */
  predicate Shortened(key: MetaKey) {
    (key.ns.Tags? || key.ns.Index?) && EndsWith(key.name, JSON)
  }

  lemma {:induction false} ListedNameOf(key: MetaKey)
    ensures ListedName(key) == if Shortened(key) then key.name[..|key.name| - 5] else key.name
  {
    StemOfJson(key.name);
  }

  /** No stored key of the namespace has a name that listing would shorten. */
  ghost predicate ListsFaithfully(mem: Memory, ns: Namespace) {
    forall key: MetaKey :: key.ns == ns && Plain(key.name) && Render(key) in mem ==> !Shortened(key)
  }

  lemma {:induction false} ListRefines(files: Files, mem: Memory, ns: Namespace)
    requires Represents(files, mem) && ListsFaithfully(mem, ns)
    ensures Listed(files, ns) == MemoryListed(mem, ns)
  {
    hide Listed, ListedName, Shortened, Get;
    forall s | s in MemoryListed(mem, ns)
      ensures s in Listed(files, ns)
    {
      assert Issued(s);
      var key: MetaKey :| Plain(key.name) && Render(key) == s;
      RenderInjective(MetaKey(ns, ""), key);
      ListedNameOf(key);
      StoredIsListed(files, mem, ns, key, s);
    }
    forall s | s in Listed(files, ns)
      ensures s in MemoryListed(mem, ns)
    {
      var key := ListedIsStored(files, mem, ns, s);
      ListedNameOf(key);
      RenderInjective(MetaKey(ns, ""), key);
    }
  }

  /** The stored key of the namespace with the longest shortened name. */
  lemma {:induction false} LongestShortened(keys: set<MetaKey>, key: MetaKey) returns (longest: MetaKey)
    requires key in keys && Shortened(key)
    ensures longest in keys && Shortened(longest)
    ensures forall k :: k in keys && Shortened(k) ==> |k.name| <= |longest.name|
    decreases |keys|
  {
    hide Shortened;
    if other :| other in keys && Shortened(other) && |other.name| > |key.name| {
      longest := LongestShortened(keys - {key}, other);
    } else {
      longest := key;
    }
  }

  /**
   * The two backends list the same keys exactly when no stored name of the namespace ends
   * in ".json" under a namespace kept in bare files.
   */
  lemma {:induction false} ListRefinesExactlyWhen(files: Files, mem: Memory, ns: Namespace)
    requires Represents(files, mem)
    ensures Listed(files, ns) == MemoryListed(mem, ns) <==> ListsFaithfully(mem, ns)
  {
    hide Listed, ListedName, Get;
    if ListsFaithfully(mem, ns) {
      ListRefines(files, mem, ns);
    } else {
      var key: MetaKey :| key.ns == ns && Plain(key.name) && Render(key) in mem && Shortened(key);
      var stored := StoredKeys(mem, ns);
      StoredKeysAre(mem, ns, key);
      var longest := LongestShortened(stored, key);
      StoredKeysAre(mem, ns, longest);
      var s := Render(longest);
      RenderInjective(MetaKey(ns, ""), longest);
      assert s in MemoryListed(mem, ns);
      if s in Listed(files, ns) {
        var other := ListedIsStored(files, mem, ns, s);
        StoredKeysAre(mem, ns, other);
        ListedNameOf(other);
        RenderInjective(MetaKey(ns, ListedName(other)), longest);
      }
    }
  }

  /** All keys of a namespace that memory holds. */
  function StoredKeys(mem: Memory, ns: Namespace): set<MetaKey> {
    set s | s in mem.Keys && Prefix(ns) <= s :: MetaKey(ns, s[|Prefix(ns)|..])
  }

  lemma {:induction false} StoredKeysAre(mem: Memory, ns: Namespace, key: MetaKey)
    ensures key in StoredKeys(mem, ns) <==> key.ns == ns && Render(key) in mem
  {
    if key.ns == ns && Render(key) in mem {
      FirstLetter(key);
      assert Prefix(ns) <= Render(key);
    }
    if key in StoredKeys(mem, ns) {
      var s :| s in mem.Keys && Prefix(ns) <= s && key == MetaKey(ns, s[|Prefix(ns)|..]);
      assert Render(key) == s;
    }
  }

  // --- Whole sequences of operations ---

  datatype Op =
    | PutOp(key: MetaKey, value: seq<byte>, tmp: string)
    | GetOp(key: MetaKey)
    | DeleteOp(key: MetaKey)
    | ListOp(ns: Namespace)

  datatype Reply = Done | Value(value: Option<seq<byte>>) | Keys(keys: set<string>)

  datatype OnFiles = OnFiles(files: Files, reply: Reply)
  datatype InMemory = InMemory(mem: Memory, reply: Reply)

  function DoOnFiles(files: Files, op: Op): OnFiles {
    match op
    case PutOp(key, value, tmp) => OnFiles(Put(files, Render(key), value, tmp), Done)
    case GetOp(key) => OnFiles(files, Value(Get(files, Render(key))))
    case DeleteOp(key) => OnFiles(Delete(files, Render(key)), Done)
    case ListOp(ns) => OnFiles(files, Keys(Listed(files, ns)))
  }

  function DoInMemory(mem: Memory, op: Op): InMemory {
    match op
    case PutOp(key, value, _) => InMemory(mem[Render(key) := value], Done)
    case GetOp(key) => InMemory(mem, Value(Lookup(mem, Render(key))))
    case DeleteOp(key) => InMemory(mem - {Render(key)}, Done)
    case ListOp(ns) => InMemory(mem, Keys(MemoryListed(mem, ns)))
  }

  function RepliesOnFiles(files: Files, ops: seq<Op>): seq<Reply>
    decreases |ops|
  {
    if ops == [] then [] else var r := DoOnFiles(files, ops[0]); [r.reply] + RepliesOnFiles(r.files, ops[1..])
  }

  function RepliesInMemory(mem: Memory, ops: seq<Op>): seq<Reply>
    decreases |ops|
  {
    if ops == [] then [] else var r := DoInMemory(mem, ops[0]); [r.reply] + RepliesInMemory(r.mem, ops[1..])
  }

  /**
   * Operations on plain names, with no tag put under a name that listing would shorten. The
   * layer store keeps to plain names wherever it checks them or renders a hash; looking up
   * and deleting tags it does not check them.
   */
  predicate IssuedOp(op: Op) {
    op.ListOp? || (Plain(op.key.name) && (op.PutOp? ==> !Shortened(op.key)))
  }

  ghost predicate AllFaithful(mem: Memory) {
    forall ns :: ListsFaithfully(mem, ns)
  }

  lemma {:induction false} FaithfulStays(mem: Memory, op: Op)
    requires AllFaithful(mem) && IssuedOp(op)
    ensures AllFaithful(DoInMemory(mem, op).mem)
  {
    hide Render;
    var mem' := DoInMemory(mem, op).mem;
    forall ns
      ensures ListsFaithfully(mem', ns)
    {
      assert ListsFaithfully(mem, ns);
      forall key: MetaKey | key.ns == ns && Plain(key.name) && Render(key) in mem'
        ensures !Shortened(key)
      {
        if op.PutOp? {
          RenderInjective(key, op.key);
        }
      }
    }
  }

  lemma {:induction false} OpRefines(files: Files, mem: Memory, op: Op)
    requires Represents(files, mem) && AllFaithful(mem) && IssuedOp(op)
    ensures var f, m := DoOnFiles(files, op), DoInMemory(mem, op);
            Represents(f.files, m.mem) && f.reply == m.reply
  {
    hide Put, Delete, Listed, MemoryListed, Render, Shortened;
    match op
    case PutOp(key, value, tmp) => PutRefines(files, mem, key, value, tmp);
    case GetOp(key) =>
    case DeleteOp(key) => DeleteRefines(files, mem, key);
    case ListOp(ns) => ListRefines(files, mem, ns);
  }

  /** Every sequence of issued operations gets the same replies from files as from memory. */
  lemma {:induction false} FilesRefineMemory(files: Files, mem: Memory, ops: seq<Op>)
    requires Represents(files, mem) && AllFaithful(mem)
    requires forall k :: 0 <= k < |ops| ==> IssuedOp(ops[k])
    ensures RepliesOnFiles(files, ops) == RepliesInMemory(mem, ops)
    decreases |ops|
  {
    hide Represents, AllFaithful, DoOnFiles, DoInMemory, IssuedOp;
    if ops == [] {
    } else {
      OpRefines(files, mem, ops[0]);
      FaithfulStays(mem, ops[0]);
      FilesRefineMemory(DoOnFiles(files, ops[0]).files, DoInMemory(mem, ops[0]).mem, ops[1..]);
    }
  }

  lemma FreshBackend()
    ensures Represents(map[], map[]) && AllFaithful(map[])
  {
  }

  /** From an empty root on, such operations cannot tell the two backends apart. */
  lemma {:induction false} BackendsAgree(ops: seq<Op>)
    requires forall k :: 0 <= k < |ops| ==> IssuedOp(ops[k])
    ensures RepliesOnFiles(map[], ops) == RepliesInMemory(map[], ops)
  {
    FreshBackend();
    FilesRefineMemory(map[], map[], ops);
  }

  // --- Names that are not plain ---

  /** The components of a name. */
  function Components(name: string, part: string): seq<string> {
    if name == "" then [part]
    else if name[0] == '/' then [part] + Components(name[1..], "")
    else Components(name[1..], part + [name[0]])
  }

  /** How the file system walks on from a directory: empty and "." components stay, ".." goes up. */
  function Walk(dir: Path, components: seq<string>): Path
    decreases |components|
  {
    if components == [] then dir
    else
      var c, rest := components[0], components[1..];
      if c == "" || c == "." then Walk(dir, rest)
      else if c == ".." then Walk(if dir == [] then [] else dir[..|dir| - 1], rest)
      else Walk(dir + [c], rest)
  }

  lemma {:induction false} OneComponent(name: string, part: string)
    requires '/' !in name
    ensures Components(name, part) == [part + name]
    decreases |name|
  {
    if name == "" {
      assert part + name == part;
    } else {
      OneComponent(name[1..], part + [name[0]]);
      assert part + [name[0]] + name[1..] == part + name;
    }
  }

  /** A plain file name is walked to as it stands, so `PathOf` is where the system looks. */
  lemma {:induction false} PlainIsWalkedTo(key: MetaKey)
    requires Plain(key.name)
    ensures Walk(Dir(key.ns), Components(FileName(key), "")) == PathOf(key)
  {
    hide Components;
    var file := FileName(key);
    OneComponent(file, "");
    assert "" + file == file && [file][1..] == [];
    assert file != key.name ==> |file| >= 6;
    assert Walk(Dir(key.ns) + [file], []) == PathOf(key);
  }

  /**
   * Looking up a tag does not check its name: under "./" and an existing tag's name the files
   * have that tag's value and the memory map has nothing.
   */
  lemma {:induction false} UncheckedNameDiffers(files: Files, mem: Memory, tag: string)
    requires Represents(files, mem) && Plain(tag) && Render(MetaKey(Tags, tag)) in mem
    ensures var name := "./" + tag;
            && Walk(Dir(Tags), Components(name, "")) in files
            && files[Walk(Dir(Tags), Components(name, ""))] == mem[Render(MetaKey(Tags, tag))]
            && Lookup(mem, Render(MetaKey(Tags, name))).None?
  {
    hide Prefix, Dir;
    var key, name := MetaKey(Tags, tag), "./" + tag;
    assert name[0] == '.' && name[1] == '/' && name[1..][1..] == tag;
    assert Components(name, "") == Components("/" + tag, ".") by {
      assert name[1..] == "/" + tag && "" + ['.'] == ".";
    }
    assert Components("/" + tag, ".") == ["."] + Components(tag, "") by {
      assert ("/" + tag)[1..] == tag;
    }
    assert (["."] + Components(tag, ""))[1..] == Components(tag, "");
    PlainIsWalkedTo(key);
    assert Walk(Dir(Tags), Components(name, "")) == PathOf(key);
    MetaPathOf(key);
    assert Get(files, Render(key)) == Lookup(mem, Render(key));
    if Render(MetaKey(Tags, name)) in mem {
      assert Issued(Render(MetaKey(Tags, name)));
      var k: MetaKey :| Plain(k.name) && Render(k) == Render(MetaKey(Tags, name));
      RenderInjective(k, MetaKey(Tags, name));
    }
  }

  // --- Crashes ---

  /** The file systems a crash during `put_meta` can leave: before, partially written, before or after the rename. */
  predicate CrashPoint(files: Files, key: string, value: seq<byte>, tmp: string, crashed: Files) {
    || crashed == files
    || (["tmp", tmp] in crashed && crashed[["tmp", tmp]] <= value
        && crashed == files[["tmp", tmp] := crashed[["tmp", tmp]]])
    || crashed == Put(files, key, value, tmp)
  }

  lemma {:induction false} ReopenedRepresents(files: Files, mem: Memory)
    requires Represents(files, mem)
    ensures Represents(Reopened(files), mem)
  {
    forall k: MetaKey | Plain(k.name)
      ensures Get(Reopened(files), Render(k)) == Lookup(mem, Render(k))
    {
      MetaPathOf(k);
      assert Get(files, Render(k)) == Lookup(mem, Render(k));
      if InDir(PathOf(k), ["tmp"]) {
        assert PathOf(k)[0] == PathOf(k)[..1][0] == "tmp";
        PlacedIsNotScratch(k, PathOf(k));
      }
    }
  }

  /** After a crash anywhere in `put_meta` and a restart, the store is the old one or the new one. */
  lemma {:induction false} PutIsAtomicAcrossCrash(
    files: Files, mem: Memory, key: MetaKey, value: seq<byte>, tmp: string, crashed: Files)
    requires Represents(files, mem) && Plain(key.name) && CrashPoint(files, Render(key), value, tmp, crashed)
    ensures Represents(Reopened(crashed), mem) || Represents(Reopened(crashed), mem[Render(key) := value])
  {
    hide Put, Reopened;
    if crashed == Put(files, Render(key), value, tmp) {
      PutRefines(files, mem, key, value, tmp);
      ReopenedRepresents(crashed, mem[Render(key) := value]);
    } else {
      ScratchIsInvisible(files, mem, ["tmp", tmp], crashed);
      ReopenedRepresents(crashed, mem);
    }
  }

  lemma {:induction false} ScratchIsInvisible(files: Files, mem: Memory, p: Path, crashed: Files)
    requires Represents(files, mem) && IsScratch(p)
    requires crashed == files || (p in crashed && crashed == files[p := crashed[p]])
    ensures Represents(crashed, mem)
  {
    forall k: MetaKey | Plain(k.name)
      ensures Get(crashed, Render(k)) == Lookup(mem, Render(k))
    {
      MetaPathOf(k);
      PlacedIsNotScratch(k, p);
      assert Get(files, Render(k)) == Lookup(mem, Render(k));
    }
  }

  // --- The backend object ---

  class LocalJsonBackend {
    var files: Files

    /** Opening an existing root clears its temporary directory. */
    constructor (existing: Files)
      ensures files == Reopened(existing)
      ensures forall p :: p in files <==> p in existing && !(|p| == 2 && p[0] == "tmp")
    {
      files := existing;
      new;
      var todo := existing.Keys;
      while todo != {}
        invariant todo <= existing.Keys
        invariant files == existing - (set p | p in existing.Keys - todo && InDir(p, ["tmp"]))
        decreases todo
      {
        var p :| p in todo;
        if InDir(p, ["tmp"]) {
          files := files - {p};
        }
        todo := todo - {p};
      }
      forall p: Path
        ensures p in files <==> p in existing && !(|p| == 2 && p[0] == "tmp")
      {
        ReopenedExactly(existing, p);
      }
    }

    /** A represented memory map is updated at the key. */
    method PutMeta(key: string, value: seq<byte>, tmp: string)
      modifies this
      ensures files == Put(old(files), key, value, tmp)
      ensures MetaPath(key) in files && files[MetaPath(key)] == value && ["tmp", tmp] !in files
      ensures forall mem, k: MetaKey :: Represents(old(files), mem) && Plain(k.name) && Render(k) == key ==>
                Represents(files, mem[key := value])
    {
      hide Represents, Render;
      PutExactly(files, key, value, tmp, []);
      var tmpPath := ["tmp", tmp];
      files := files[tmpPath := value];
      var written := files[tmpPath];
      files := (files - {tmpPath})[MetaPath(key) := written];
      forall mem, k: MetaKey | Represents(old(files), mem) && Plain(k.name) && Render(k) == key
        ensures Represents(files, mem[key := value])
      {
        PutRefines(old(files), mem, k, value, tmp);
      }
    }

    /** The value is the one a represented memory map holds. */
    method GetMeta(key: string) returns (value: Option<seq<byte>>)
      ensures value == Get(files, key)
      ensures forall mem, k: MetaKey :: Represents(files, mem) && Plain(k.name) && Render(k) == key ==>
                value == Lookup(mem, key)
    {
      var path := MetaPath(key);
      return if path in files then Some(files[path]) else None;
    }

    /** Deleting what is not there succeeds and changes nothing. */
    method DeleteMeta(key: string)
      modifies this
      ensures files == Delete(old(files), key)
      ensures Get(old(files), key).None? ==> files == old(files)
      ensures forall mem, k: MetaKey :: Represents(old(files), mem) && Plain(k.name) && Render(k) == key ==>
                Represents(files, mem - {key})
    {
      hide Represents, Render;
      files := files - {MetaPath(key)};
      forall mem, k: MetaKey | Represents(old(files), mem) && Plain(k.name) && Render(k) == key
        ensures Represents(files, mem - {key})
      {
        DeleteRefines(old(files), mem, k);
      }
    }

    method ListMeta(ns: Namespace) returns (keys: seq<string>)
      ensures (set s | s in keys) == Listed(files, ns)
    {
      hide ListedFrom, Prefix, Dir;
      keys := [];
      var todo := files.Keys;
      ListedFromNothing(ns);
      assert files.Keys - todo == {};
      while todo != {}
        invariant todo <= files.Keys
        invariant (set s | s in keys) == ListedFrom(files.Keys - todo, ns)
        decreases todo
      {
        var p :| p in todo;
        ListedGrows(files.Keys - todo, p, ns);
        assert files.Keys - (todo - {p}) == files.Keys - todo + {p};
        if InDir(p, Dir(ns)) {
          var fileName := p[|p| - 1];
          var name := if EndsWith(fileName, JSON) then fileName[..|fileName| - |JSON|] else fileName;
          assert (set s | s in keys + [Prefix(ns) + name]) == (set s | s in keys) + {Prefix(ns) + name};
          keys := keys + [Prefix(ns) + name];
        }
        todo := todo - {p};
      }
      assert files.Keys - todo == files.Keys;
    }
  }

  lemma ListedFromNothing(ns: Namespace)
    ensures ListedFrom({}, ns) == {}
  {
  }

  lemma {:induction false} ListedGrows(paths: set<Path>, p: Path, ns: Namespace)
    ensures ListedFrom(paths + {p}, ns)
         == ListedFrom(paths, ns) + if InDir(p, Dir(ns)) then {Prefix(ns) + Stem(p[|p| - 1])} else {}
  {
    hide Prefix, Dir, Stem;
    var extra := if InDir(p, Dir(ns)) then {Prefix(ns) + Stem(p[|p| - 1])} else {};
    forall s | s in ListedFrom(paths, ns) + extra
      ensures s in ListedFrom(paths + {p}, ns)
    {
      if s in ListedFrom(paths, ns) {
        var q :| q in paths && InDir(q, Dir(ns)) && s == Prefix(ns) + Stem(q[|q| - 1]);
        assert q in paths + {p};
      } else {
        assert p in paths + {p};
      }
    }
  }
}
