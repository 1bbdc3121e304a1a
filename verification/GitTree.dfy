/** Git tree object ids (`git_tree`): the trie of a file map, its serialisation, and its hash. */
module GitTree {
  import opened Prelude
  import Order

  const SLASH: Byte := 47
  const SPACE: Byte := 32
  const NUL: Byte := 0

  /** A Git object id: twenty bytes. */
  type Id = s: Bytes | |s| == 20 witness seq(20, _ => 0)

  type Hash = Bytes -> Id

  /** The two modes of a file. */
  datatype Mode = Plain | Executable

  /** A file's path (its UTF-8 bytes, so that code-point order is byte order), mode and content. */
  datatype File = File(path: Bytes, mode: Mode, raw: Bytes)

  datatype Node = Leaf(mode: Mode, id: Id) | Dir(entries: map<Bytes, Node>)

  const BLOB: Bytes := Chars("blob ")
  const TREE: Bytes := Chars("tree ")

  function BlobObject(raw: Bytes): Bytes {
    BLOB + Digits(|raw|) + [NUL] + raw
  }

  function BlobId(raw: Bytes, sha: Hash): Id { sha(BlobObject(raw)) }

  // ------------------------------------------------------------------ the trie

  /** Putting a leaf at a path: None where a parent is a file, which Python refuses to index. */
  function Insert(entries: map<Bytes, Node>, parts: seq<Bytes>, leaf: Node): Option<map<Bytes, Node>>
    requires parts != []
    decreases |parts|
  {
    if |parts| == 1 then Some(entries[parts[0] := leaf])
    else
      var child := if parts[0] in entries then entries[parts[0]] else Dir(map[]);
      if child.Leaf? then None
      else
        match Insert(child.entries, parts[1..], leaf)
        case None => None
        case Some(below) => Some(entries[parts[0] := Dir(below)])
  }

  function LeafOf(f: File, sha: Hash): Node { Leaf(f.mode, BlobId(f.raw, sha)) }

  function Parts(f: File): seq<Bytes> { Split(f.path, SLASH) }

  function Build(files: seq<File>, sha: Hash): Option<map<Bytes, Node>> {
    if files == [] then Some(map[])
    else
      var last := files[|files| - 1];
      match Build(files[..|files| - 1], sha)
      case None => None
      case Some(entries) => Insert(entries, Parts(last), LeafOf(last, sha))
  }

  /** The loop of `git_tree` over the file map, in the map's own order. */
  method BuildTree(files: seq<File>, sha: Hash) returns (root: Option<map<Bytes, Node>>)
    ensures root == Build(files, sha)
  {
    var entries: map<Bytes, Node> := map[];
    for i := 0 to |files|
      invariant Build(files[..i], sha) == Some(entries)
    {
      assert files[..i + 1][..i] == files[..i];
      var inserted := Insert(entries, Parts(files[i]), LeafOf(files[i], sha));
      if inserted.None? {
        BuildStops(files, i + 1, sha);
        return None;
      }
      entries := inserted.value;
    }
    assert files[..|files|] == files;
    return Some(entries);
  }

  lemma {:induction false} BuildStops(files: seq<File>, k: nat, sha: Hash)
    requires k <= |files| && Build(files[..k], sha).None?
    ensures Build(files, sha).None?
  {
    if k == |files| {
      assert files[..k] == files;
    } else {
      assert files[..|files| - 1][..k] == files[..k];
      BuildStops(files[..|files| - 1], k, sha);
    }
  }

  /** The leaf at a path of a trie. */
  function Lookup(entries: map<Bytes, Node>, parts: seq<Bytes>): Option<Node>
    decreases |parts|
  {
    if parts == [] || parts[0] !in entries then None
    else if |parts| == 1 then if entries[parts[0]].Leaf? then Some(entries[parts[0]]) else None
    else if entries[parts[0]].Dir? then Lookup(entries[parts[0]].entries, parts[1..])
    else None
  }

  // ------------------------------------------------------------------ serialisation

  /** One line of a tree object: a file's mode, or None for a directory, with its name and id. */
  datatype Row = Row(mode: Option<Mode>, name: Bytes, id: Id)

  function ModeBytes(mode: Option<Mode>): (m: Bytes)
    ensures SPACE !in m
  {
    match mode
    case None => Chars("40000")
    case Some(Plain) => Chars("100644")
    case Some(Executable) => Chars("100755")
  }

  function RowBytes(r: Row): Bytes {
    ModeBytes(r.mode) + [SPACE] + r.name + [NUL] + r.id
  }

  function Body(rows: seq<Row>): Bytes {
    if rows == [] then [] else RowBytes(rows[0]) + Body(rows[1..])
  }

  function TreeObject(body: Bytes): Bytes {
    TREE + Digits(|body|) + [NUL] + body
  }

  /** Git compares a directory's name as if it ended in a slash. */
  function SortKey(name: Bytes, node: Node): Bytes {
    if node.Dir? then name + [SLASH] else name
  }

  /** The keys of a directory's entries, in order. */
  function SortedKeys(entries: map<Bytes, Node>): (keys: seq<Bytes>)
    ensures Order.Increasing(keys)
    ensures forall k :: k in keys <==> exists name :: name in entries && k == SortKey(name, entries[name])
  {
    var set_ := set name | name in entries :: SortKey(name, entries[name]);
    var keys := Order.Sorted(set_);
    assert forall i :: 0 <= i < |keys| ==> keys[i] in keys && keys[i] in set_;
    keys
  }

  function NameOf(key: Bytes): Bytes {
    if key != [] && key[|key| - 1] == SLASH then key[..|key| - 1] else key
  }

  /** `tree(node)`, the id of a directory. */
  function TreeId(node: Node, sha: Hash): Id
    requires node.Dir?
    decreases node, 1
  {
    sha(TreeObject(Body(Rows(node, SortedKeys(node.entries), sha))))
  }

  function Rows(node: Node, keys: seq<Bytes>, sha: Hash): (rows: seq<Row>)
    requires node.Dir?
    ensures |rows| == |keys|
    decreases node, 0, |keys|
  {
    if keys == [] then []
    else [RowOf(node, NameOf(keys[0]), sha)] + Rows(node, keys[1..], sha)
  }

  function RowOf(node: Node, name: Bytes, sha: Hash): Row
    requires node.Dir?
    decreases node, 0, 0
  {
    if name !in node.entries then Row(None, name, seq(20, _ => 0))
    else
      match node.entries[name]
      case Leaf(mode, id) => Row(Some(mode), name, id)
      case Dir(_) => Row(None, name, TreeId(node.entries[name], sha))
  }

  /** `git_tree`: None where building the trie fails. */
  function FilesId(files: seq<File>, sha: Hash): Option<Id> {
    match Build(files, sha)
    case None => None
    case Some(entries) => Some(TreeId(Dir(entries), sha))
  }
}
