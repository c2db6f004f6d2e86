/** The trees a merge reads and writes, the primary's and the agents': walked
    name by name, with links refused (crates/git-broker/src/tree.rs). */
module FileTree {
  import opened Common

  datatype Node =
    | Dir(children: map<string, Node>)
    | File(content: Bytes)
    | Link(target: string)
    | Special

  /** A path as the names it walks. */
  type Names = seq<string>

  /** What a walk finds at its end, or what stops it. */
  datatype Entry =
    | Absent
    | Blocked
    | Regular(bytes: Bytes)
    | Refused

  datatype TreeError =
    | Malformed(path: string)
    | CannotWrite(path: string)

  // ----- From a changeset path to the names it walks -----

  datatype Component = RootDir | CurDir | ParentDir | Normal(name: string)

  /** What a file system promises of a name in a directory. */
  predicate FileName(name: string) {
    name != "" && name != "." && name != ".." && '/' !in name
  }

  predicate FileNames(names: Names) {
    names != [] && forall i :: 0 <= i < |names| ==> FileName(names[i])
  }

  /** The pieces between separators; always at least one. */
  function Split(s: string): (pieces: seq<string>)
    ensures pieces != []
  {
    if s == [] then [[]]
    else
      var rest := Split(s[1..]);
      if s[0] == '/' then [[]] + rest else [[s[0]] + rest[0]] + rest[1..]
  }

  function Join(names: Names): string {
    if names == [] then []
    else if |names| == 1 then names[0]
    else names[0] + "/" + Join(names[1..])
  }

  /** The components of the pieces after the first: empty ones and `.` vanish. */
  function LaterComponents(pieces: seq<string>): seq<Component> {
    if pieces == [] then []
    else if pieces[0] == "" || pieces[0] == "." then LaterComponents(pieces[1..])
    else [if pieces[0] == ".." then ParentDir else Normal(pieces[0])] + LaterComponents(pieces[1..])
  }

  /** How a relative path splits into components: a leading `/` is a root, and a
      `.` counts only where the path starts with it. */
  function Components(rel: string): seq<Component> {
    var pieces := Split(rel);
    if rel != "" && rel[0] == '/' then [RootDir] + LaterComponents(pieces)
    else if pieces[0] == "." then [CurDir] + LaterComponents(pieces[1..])
    else LaterComponents(pieces)
  }

  function NormalNames(components: seq<Component>): Names
    requires forall c :: c in components ==> c.Normal?
  {
    seq(|components|, i requires 0 <= i < |components| => components[i].name)
  }

  lemma NormalNamesGrow(front: seq<Component>, last: Component)
    requires (forall c :: c in front ==> c.Normal?) && last.Normal?
    ensures forall c :: c in front + [last] ==> c.Normal?
    ensures NormalNames(front + [last]) == NormalNames(front) + [last.name]
  {
  }

  /** The names `rel` walks, or none when it is not a path inside the tree. */
  function NamesOf(rel: string): (r: Option<Names>)
    ensures r.Some? ==> r.value != []
  {
    var components := Components(rel);
    if components != [] && forall c <- components :: c.Normal?
    then Some(NormalNames(components))
    else None
  }

  lemma {:induction false} PiecesHoldNoSlash(s: string, i: nat)
    requires i < |Split(s)|
    ensures '/' !in Split(s)[i]
    decreases |s|
  {
    if s == [] {
    } else {
      if s[0] == '/' {
        if i > 0 {
          PiecesHoldNoSlash(s[1..], i - 1);
        }
      } else {
        PiecesHoldNoSlash(s[1..], i);
      }
    }
  }

  lemma {:induction false} LaterComponentsArePlain(pieces: seq<string>, k: nat)
    requires k < |LaterComponents(pieces)| && LaterComponents(pieces)[k].Normal?
    requires forall i :: 0 <= i < |pieces| ==> '/' !in pieces[i]
    ensures FileName(LaterComponents(pieces)[k].name)
    decreases |pieces|
  {
    if pieces[0] == "" || pieces[0] == "." {
      LaterComponentsArePlain(pieces[1..], k);
    } else if k > 0 {
      LaterComponentsArePlain(pieces[1..], k - 1);
    }
  }

  /** A path that resolves walks plain names only: none is empty, `.` or `..`,
      and none holds a separator. */
  lemma NamesArePlain(rel: string)
    requires NamesOf(rel).Some?
    ensures FileNames(NamesOf(rel).value)
  {
    var names := NamesOf(rel).value;
    var pieces := Split(rel);
    forall i | 0 <= i < |pieces|
      ensures '/' !in pieces[i]
    {
      PiecesHoldNoSlash(rel, i);
    }
    assert Components(rel)[0] in Components(rel);
    assert Components(rel) == LaterComponents(pieces);
    forall k | 0 <= k < |names|
      ensures FileName(names[k])
    {
      assert Components(rel)[k] in Components(rel);
      LaterComponentsArePlain(pieces, k);
    }
  }

  /** Which of the pieces between separators a walk goes through. */
  function KeptPieces(pieces: seq<string>): seq<string> {
    if pieces == [] then []
    else (if pieces[0] == "" || pieces[0] == "." then [] else [pieces[0]]) + KeptPieces(pieces[1..])
  }

  lemma {:induction false} LaterComponentsAreKept(pieces: seq<string>)
    ensures |LaterComponents(pieces)| == |KeptPieces(pieces)|
    ensures forall k :: 0 <= k < |KeptPieces(pieces)| ==>
              LaterComponents(pieces)[k] == if KeptPieces(pieces)[k] == ".." then ParentDir else Normal(KeptPieces(pieces)[k])
    ensures forall piece :: piece in KeptPieces(pieces) <==> piece in pieces && piece != "" && piece != "."
  {
    if pieces == [] {
    } else {
      LaterComponentsAreKept(pieces[1..]);
      assert pieces == [pieces[0]] + pieces[1..];
    }
  }

  /** A path resolves exactly when it is not empty or absolute, does not start
      with a dot, goes nowhere up, and names something; it then walks its pieces,
      but for empty ones and dots. */
  lemma ResolvesExactlyWhen(rel: string)
    ensures NamesOf(rel).Some? <==>
            && rel != "" && rel[0] != '/' && Split(rel)[0] != "." && ".." !in Split(rel) && KeptPieces(Split(rel)) != []
    ensures NamesOf(rel).Some? ==> NamesOf(rel).value == KeptPieces(Split(rel))
  {
    var pieces, components := Split(rel), Components(rel);
    LaterComponentsAreKept(pieces);
    assert components != [] ==> components[0] in components;
    if components == LaterComponents(pieces) {
      if ".." in pieces {
        assert ".." in KeptPieces(pieces);
        var k :| 0 <= k < |KeptPieces(pieces)| && KeptPieces(pieces)[k] == "..";
        assert components[k] == ParentDir && components[k] in components;
      }
    }
  }

  // ----- What is at a path -----

  /** What sits at `names` when every directory on the way is a real one. */
  function NodeAt(n: Node, names: Names): Option<Node> {
    if names == [] then Some(n)
    else if n.Dir? && names[0] in n.children then NodeAt(n.children[names[0]], names[1..])
    else None
  }

  /** The walk, as a recursion from the directory `n`. */
  function EntryAt(n: Node, names: Names): Entry
    requires names != [] && n.Dir?
    decreases |names|
  {
    if names[0] !in n.children then Absent
    else
      var child := n.children[names[0]];
      if child.Link? then Refused
      else if |names| == 1 then
        if child.File? then Regular(child.content) else Refused
      else if !child.Dir? then Blocked
      else EntryAt(child, names[1..])
  }

  // ----- Writing at a path -----

  datatype Written = Written(node: Node, ok: bool)

  /** A write into the directory that holds the file. */
  function WriteHere(n: Node, name: string, preimage: string, content: Bytes, sha: Sha): Written
    requires n.Dir?
  {
    if name !in n.children then
      if preimage == NULL_HASH
      then Written(Dir(n.children[name := File(content)]), true)
      else Written(n, false)
    else
      var child := n.children[name];
      if child.File? && preimage != NULL_HASH && sha(child.content) == preimage
      then Written(Dir(n.children[name := File(content)]), true)
      else Written(n, false)
  }

  /** A write below `n`, as a recursion. A refused write may still have created
      directories on the way. */
  function WriteAt(n: Node, names: Names, preimage: string, content: Bytes, sha: Sha): (w: Written)
    requires names != [] && n.Dir?
    ensures w.node.Dir?
    decreases |names|
  {
    if |names| == 1 then WriteHere(n, names[0], preimage, content, sha)
    else if names[0] !in n.children then
      var below := WriteAt(Dir(map[]), names[1..], preimage, content, sha);
      Written(Dir(n.children[names[0] := below.node]), below.ok)
    else if n.children[names[0]].Dir? then
      var below := WriteAt(n.children[names[0]], names[1..], preimage, content, sha);
      Written(Dir(n.children[names[0] := below.node]), below.ok)
    else Written(n, false)
  }

  /** Replaces what is at `names`; the directory above it must be real. */
  function SetAt(n: Node, names: Names, node: Node): (r: Node)
    requires names != []
    requires NodeAt(n, names[..|names| - 1]).Some? && NodeAt(n, names[..|names| - 1]).value.Dir?
    ensures r.Dir?
    decreases |names|
  {
    if |names| == 1 then
      assert names[..0] == [];
      Dir(n.children[names[0] := node])
    else
      assert names[..|names| - 1][1..] == names[1..][..|names[1..]| - 1];
      Dir(n.children[names[0] := SetAt(n.children[names[0]], names[1..], node)])
  }

  /** The tree `fs` keeps: one mutable root directory. */
  class Tree {
    var root: Node

    constructor (node: Node)
      requires node.Dir?
      ensures root == node
    {
      root := node;
    }

    /** Collects the names of a path's components, and gives up at the first
        component that is not a name. */
    method Names(rel: string) returns (r: Option<Names>)
      ensures r == NamesOf(rel)
    {
      var components := Components(rel);
      var names: Names := [];
      for i := 0 to |components|
        invariant forall c :: c in components[..i] ==> c.Normal?
        invariant names == NormalNames(components[..i])
      {
        if !components[i].Normal? {
          assert components[i] in components;
          return None;
        }
        NormalNamesGrow(components[..i], components[i]);
        assert components[..i + 1] == components[..i] + [components[i]];
        names := names + [components[i].name];
      }
      assert components[..|components|] == components;
      if names == [] {
        return None;
      }
      return Some(names);
    }

    /** Walks to `rel` and tells what is there. */
    method EntryOf(rel: string) returns (r: Result<Entry, TreeError>)
      requires root.Dir?
      ensures r == match NamesOf(rel) case None => Err(Malformed(rel)) case Some(names) => Ok(EntryAt(root, names))
    {
      var parsed := Names(rel);
      if parsed.None? {
        return Err(Malformed(rel));
      }
      var names := parsed.value;
      assert names[..0] == [];
      for depth := 0 to |names|
        invariant NodeAt(root, names[..depth]).Some?
        invariant depth < |names| ==> NodeAt(root, names[..depth]).value.Dir?
        invariant depth < |names| ==>
                    EntryAt(root, names) == EntryAt(NodeAt(root, names[..depth]).value, names[depth..])
        invariant depth == |names| ==>
                    NodeAt(root, names).Some? && NodeAt(root, names).value.File? &&
                    EntryAt(root, names) == Regular(NodeAt(root, names).value.content)
      {
        NodeAtStep(root, names, depth);
        assert depth + 1 < |names| ==> names[depth..][1..] == names[depth + 1..];
        assert depth + 1 == |names| ==> names[..depth + 1] == names;
        var meta := NodeAt(root, names[..depth + 1]);
        if meta.None? {
          return Ok(Absent);
        }
        if meta.value.Link? {
          return Ok(Refused);
        }
        var last := depth + 1 == |names|;
        if !last && !meta.value.Dir? {
          return Ok(Blocked);
        }
        if last && !meta.value.File? {
          return Ok(Refused);
        }
      }
      return Ok(Regular(NodeAt(root, names).value.content));
    }

    /** Walks down, creating a directory wherever none stands, and then lets
        `WriteHere` compare and write in the last one. A walk that fails keeps
        the directories it made. */
    method Write(rel: string, preimage: string, content: Bytes, sha: Sha) returns (r: Result<(), TreeError>)
      requires root.Dir?
      modifies this
      ensures root.Dir?
      ensures match NamesOf(rel)
              case None => r == Err(Malformed(rel)) && root == old(root)
              case Some(names) =>
                var w := WriteAt(old(root), names, preimage, content, sha);
                root == w.node && r == if w.ok then Ok(()) else Err(CannotWrite(rel))
    {
      var parsed := Names(rel);
      if parsed.None? {
        return Err(Malformed(rel));
      }
      var names := parsed.value;
      var dirs := names[..|names| - 1];
      assert dirs[..0] == [];
      for depth := 0 to |dirs|
        invariant root.Dir?
        invariant NodeAt(root, dirs[..depth]).Some? && NodeAt(root, dirs[..depth]).value.Dir?
        invariant WriteAt(root, names, preimage, content, sha) == WriteAt(old(root), names, preimage, content, sha)
      {
        var dir := dirs[..depth + 1];
        assert dir == names[..depth + 1] && dirs[..depth] == names[..depth];
        NodeAtStep(root, names, depth);
        var meta := NodeAt(root, dir);
        if meta.None? {
          assert dir[..|dir| - 1] == dirs[..depth];
          MadeDirectoryKeepsWrite(root, names, depth, preimage, content, sha);
          root := SetAt(root, dir, Dir(map[]));
        } else if !meta.value.Dir? {
          // A link, or something else that is not a directory.
          ObstacleStopsWrite(root, names, depth, preimage, content, sha);
          return Err(CannotWrite(rel));
        }
      }
      assert dirs[..|dirs|] == dirs;
      WriteInParent(root, names, preimage, content, sha);
      NodeAtStep(root, names, |dirs|);
      assert names[..|dirs| + 1] == names;
      var meta := NodeAt(root, names);
      if meta.Some? && !meta.value.File? {
        return Err(CannotWrite(rel));
      }
      if preimage == NULL_HASH {
        if meta.Some? {
          return Err(CannotWrite(rel));
        }
      } else {
        if meta.None? {
          return Err(CannotWrite(rel));
        }
        if sha(meta.value.content) != preimage {
          return Err(CannotWrite(rel));
        }
      }
      root := SetAt(root, names, File(content));
      return Ok(());
    }
  }

  // ----- The walk, step by step -----

  lemma NodeAtStep(n: Node, names: Names, depth: nat)
    requires depth < |names|
    ensures NodeAt(n, names[..depth + 1]) ==
            match NodeAt(n, names[..depth])
            case None => None
            case Some(at) => if at.Dir? && names[depth] in at.children then Some(at.children[names[depth]]) else None
    decreases depth
  {
    if depth == 0 {
      assert names[..1] == [names[0]];
    } else {
      assert names[..depth + 1][1..] == names[1..][..depth];
      assert names[..depth][1..] == names[1..][..depth - 1];
      if n.Dir? && names[0] in n.children {
        NodeAtStep(n.children[names[0]], names[1..], depth - 1);
      }
    }
  }

  /** Creating a missing directory of the path beforehand changes nothing about
      what the write then does. */
  lemma MadeDirectoryKeepsWrite(n: Node, names: Names, depth: nat, preimage: string, content: Bytes, sha: Sha)
    requires n.Dir? && depth + 1 < |names|
    requires NodeAt(n, names[..depth]).Some? && NodeAt(n, names[..depth]).value.Dir?
    requires NodeAt(n, names[..depth + 1]).None?
    requires names[..depth + 1][..depth] == names[..depth]
    ensures var made := SetAt(n, names[..depth + 1], Dir(map[]));
            && WriteAt(made, names, preimage, content, sha) == WriteAt(n, names, preimage, content, sha)
            && NodeAt(made, names[..depth + 1]) == Some(Dir(map[]))
    decreases depth
  {
    var dir := names[..depth + 1];
    NodeAtStep(n, names, depth);
    var made := SetAt(n, dir, Dir(map[]));
    if depth == 0 {
      assert dir == [names[0]];
      var below := WriteAt(Dir(map[]), names[1..], preimage, content, sha);
      assert n.children[names[0] := Dir(map[])][names[0] := below.node] == n.children[names[0] := below.node];
      assert NodeAt(made, dir) == NodeAt(Dir(map[]), dir[1..]);
    } else {
      var tail := names[1..];
      assert dir[1..] == tail[..depth];
      assert dir[1..][..depth - 1] == tail[..depth - 1] == names[..depth][1..];
      assert names[..depth][0] == names[0] == dir[0];
      var child := n.children[names[0]];
      MadeDirectoryKeepsWrite(child, tail, depth - 1, preimage, content, sha);
      var made' := SetAt(child, tail[..depth], Dir(map[]));
      assert made == Dir(n.children[names[0] := made']);
      var below := WriteAt(child, tail, preimage, content, sha);
      assert made.children[names[0] := below.node] == n.children[names[0] := below.node];
    }
  }

  lemma ObstacleStopsWrite(n: Node, names: Names, depth: nat, preimage: string, content: Bytes, sha: Sha)
    requires n.Dir? && depth + 1 < |names|
    requires NodeAt(n, names[..depth + 1]).Some? && !NodeAt(n, names[..depth + 1]).value.Dir?
    ensures WriteAt(n, names, preimage, content, sha) == Written(n, false)
    decreases depth
  {
    if depth == 0 {
      assert names[..1] == [names[0]];
    } else {
      assert names[..depth + 1][1..] == names[1..][..depth];
      var child := n.children[names[0]];
      NodeAtStep(n, names, 0);
      ObstacleStopsWrite(child, names[1..], depth - 1, preimage, content, sha);
      assert n.children[names[0] := child] == n.children;
    }
  }

  /** Once every directory of the path is real, the write happens in the last one. */
  lemma WriteInParent(n: Node, names: Names, preimage: string, content: Bytes, sha: Sha)
    requires n.Dir? && names != []
    requires NodeAt(n, names[..|names| - 1]).Some? && NodeAt(n, names[..|names| - 1]).value.Dir?
    ensures var parent := NodeAt(n, names[..|names| - 1]).value;
            var here := WriteHere(parent, names[|names| - 1], preimage, content, sha);
            WriteAt(n, names, preimage, content, sha) ==
            if here.ok then Written(SetAt(n, names, File(content)), true) else Written(n, false)
    decreases |names|
  {
    if |names| == 1 {
      assert names[..0] == [];
    } else {
      assert names[..|names| - 1][1..] == names[1..][..|names[1..]| - 1];
      var child := n.children[names[0]];
      WriteInParent(child, names[1..], preimage, content, sha);
      assert n.children[names[0] := child] == n.children;
    }
  }

  // ----- What a write does, and what it leaves alone -----

  /** The regular file, link or special file at `names`, if there is one. */
  function LeafAt(n: Node, names: Names): Option<Node> {
    var at := NodeAt(n, names);
    if at.Some? && !at.value.Dir? then at else None
  }

  /** Neither path is the other, nor lies below it. */
  ghost predicate Unrelated(p: Names, q: Names) {
    !(p <= q) && !(q <= p)
  }

  /** The condition under which a write at `names` succeeds. */
  predicate Writable(n: Node, names: Names, preimage: string, sha: Sha)
    requires names != [] && n.Dir?
  {
    match EntryAt(n, names)
    case Absent => preimage == NULL_HASH
    case Regular(bytes) => preimage != NULL_HASH && sha(bytes) == preimage
    case _ => false
  }

  lemma EntryIsFile(n: Node, names: Names)
    requires names != [] && n.Dir?
    ensures forall c :: EntryAt(n, names) == Regular(c) <==> NodeAt(n, names) == Some(File(c))
    ensures EntryAt(n, names).Regular? <==> NodeAt(n, names).Some? && NodeAt(n, names).value.File?
    decreases |names|
  {
    if names[0] in n.children {
      var child := n.children[names[0]];
      assert NodeAt(n, names) == NodeAt(child, names[1..]);
      if |names| > 1 && child.Dir? {
        EntryIsFile(child, names[1..]);
      }
    }
  }

  /** The walk stops with nothing found exactly when the directories lead to a
      place where the next name is missing. */
  lemma {:induction false} AbsentExactlyWhen(n: Node, names: Names)
    requires names != [] && n.Dir?
    ensures EntryAt(n, names).Absent? <==>
            exists k: nat :: k < |names| && IsDirectory(NodeAt(n, names[..k])) && NodeAt(n, names[..k + 1]).None?
    decreases |names|
  {
    WalksFirst(n, names);
    if names[0] !in n.children {
      assert IsDirectory(NodeAt(n, names[..0])) && NodeAt(n, names[..1]).None?;
    } else if |names| > 1 && n.children[names[0]].Dir? {
      var child := n.children[names[0]];
      AbsentExactlyWhen(child, names[1..]);
      if k: nat :| k < |names[1..]| && IsDirectory(NodeAt(child, names[1..][..k])) && NodeAt(child, names[1..][..k + 1]).None? {
        assert IsDirectory(NodeAt(n, names[..k + 1])) && NodeAt(n, names[..k + 2]).None?;
      }
      if k: nat :| k < |names| && IsDirectory(NodeAt(n, names[..k])) && NodeAt(n, names[..k + 1]).None? {
        assert k > 0;
        assert IsDirectory(NodeAt(child, names[1..][..k - 1])) && NodeAt(child, names[1..][..k]).None?;
      }
    }
  }

  predicate IsDirectory(at: Option<Node>) {
    at.Some? && at.value.Dir?
  }

  /** Where the walk is after each name, seen from the first directory below. */
  lemma WalksFirst(n: Node, names: Names)
    requires names != [] && n.Dir?
    ensures names[..0] == [] && names[..1] == [names[0]]
    ensures forall k :: 0 < k <= |names| ==> names[..k][0] == names[0] && names[..k][1..] == names[1..][..k - 1]
    ensures forall k :: 0 < k <= |names| ==>
              NodeAt(n, names[..k]) == if names[0] in n.children then NodeAt(n.children[names[0]], names[1..][..k - 1]) else None
    ensures |names| > 1 ==> names[1..][..0] == []
  {
    forall k | 0 < k <= |names|
      ensures names[..k][0] == names[0] && names[..k][1..] == names[1..][..k - 1]
    {
    }
  }

  /** It is refused exactly when it meets a link, or ends at something that is
      not a regular file. */
  lemma {:induction false} RefusedExactlyWhen(n: Node, names: Names)
    requires names != [] && n.Dir?
    ensures EntryAt(n, names).Refused? <==>
            || (exists k: nat :: 0 < k <= |names| && NodeAt(n, names[..k]).Some? && NodeAt(n, names[..k]).value.Link?)
            || (NodeAt(n, names).Some? && !NodeAt(n, names).value.File?)
    decreases |names|
  {
    WalksFirst(n, names);
    assert names[..|names|] == names;
    if names[0] in n.children {
      var child := n.children[names[0]];
      assert NodeAt(n, names) == NodeAt(child, names[1..]);
      if child.Link? {
        assert NodeAt(n, names[..1]).value.Link?;
      } else if |names| > 1 && child.Dir? {
        RefusedExactlyWhen(child, names[1..]);
        if k: nat :| 0 < k <= |names[1..]| && NodeAt(child, names[1..][..k]).Some? && NodeAt(child, names[1..][..k]).value.Link? {
          assert NodeAt(n, names[..k + 1]).value.Link?;
        }
        if k: nat :| 0 < k <= |names| && NodeAt(n, names[..k]).Some? && NodeAt(n, names[..k]).value.Link? {
          assert k > 1;
          assert NodeAt(child, names[1..][..k - 1]).value.Link?;
        }
      } else {
        forall k: nat | 0 < k <= |names| && NodeAt(n, names[..k]).Some?
          ensures !NodeAt(n, names[..k]).value.Link?
        {
        }
      }
    }
  }

  /** A write leaves a real directory wherever its path needs one, unless
      something else was there; so it does even when it fails in the end. */
  lemma {:induction false} WriteMakesDirectories(n: Node, names: Names, preimage: string, content: Bytes, sha: Sha, k: nat)
    requires n.Dir? && 0 < k < |names|
    requires forall j :: 0 < j <= k ==> NodeAt(n, names[..j]).None? || NodeAt(n, names[..j]).value.Dir?
    ensures IsDirectory(NodeAt(WriteAt(n, names, preimage, content, sha).node, names[..k]))
    decreases |names|
  {
    WalksFirst(n, names);
    var after := WriteAt(n, names, preimage, content, sha).node;
    var child := if names[0] in n.children then n.children[names[0]] else Dir(map[]);
    assert NodeAt(n, names[..1]).None? || NodeAt(n, names[..1]).value.Dir?;
    WalksFirst(after, names);
    if k > 1 {
      forall j | 0 < j <= k - 1
        ensures NodeAt(child, names[1..][..j]).None? || NodeAt(child, names[1..][..j]).value.Dir?
      {
        assert NodeAt(n, names[..j + 1]).None? || NodeAt(n, names[..j + 1]).value.Dir?;
      }
      WriteMakesDirectories(child, names[1..], preimage, content, sha, k - 1);
    }
  }

  lemma {:induction false} WriteSucceedsExactlyWhenWritable(n: Node, names: Names, preimage: string, content: Bytes, sha: Sha)
    requires names != [] && n.Dir?
    ensures WriteAt(n, names, preimage, content, sha).ok <==> Writable(n, names, preimage, sha)
    decreases |names|
  {
    if |names| <= 1 {
    } else {
      if names[0] !in n.children {
        EmptyDirectoryWrite(names[1..], preimage, content, sha);
      } else if n.children[names[0]].Dir? {
        WriteSucceedsExactlyWhenWritable(n.children[names[0]], names[1..], preimage, content, sha);
      }
    }
  }

  lemma EmptyDirectoryWrite(names: Names, preimage: string, content: Bytes, sha: Sha)
    requires names != []
    ensures WriteAt(Dir(map[]), names, preimage, content, sha).ok <==> preimage == NULL_HASH
    decreases |names|
  {
    if |names| <= 1 {
    } else {
      EmptyDirectoryWrite(names[1..], preimage, content, sha);
    }
  }

  /** A successful write puts exactly the content at the path. */
  lemma {:induction false} WriteStores(n: Node, names: Names, preimage: string, content: Bytes, sha: Sha)
    requires names != [] && n.Dir?
    requires WriteAt(n, names, preimage, content, sha).ok
    ensures EntryAt(WriteAt(n, names, preimage, content, sha).node, names) == Regular(content)
    decreases |names|
  {
    if |names| <= 1 {
    } else {
      var child := if names[0] in n.children then n.children[names[0]] else Dir(map[]);
      WriteStores(child, names[1..], preimage, content, sha);
    }
  }

  /** A write, refused or not, changes what no unrelated path finds. */
  lemma {:induction false} WriteKeepsUnrelated(n: Node, names: Names, preimage: string, content: Bytes, sha: Sha, other: Names)
    requires names != [] && other != [] && n.Dir?
    requires Unrelated(names, other)
    ensures EntryAt(WriteAt(n, names, preimage, content, sha).node, other) == EntryAt(n, other)
    decreases |names|
  {
    if names[0] == other[0] {
      assert names == [names[0]] + names[1..] && other == [other[0]] + other[1..];
      assert Unrelated(names[1..], other[1..]);
      assert |names| > 1 && |other| > 1;
      var child := if names[0] in n.children then n.children[names[0]] else Dir(map[]);
      if child.Dir? {
        WriteKeepsUnrelated(child, names[1..], preimage, content, sha, other[1..]);
      }
    }
  }

  /** After a successful write, a path above or below the file can not be
      written any more. */
  lemma {:induction false} WriteBlocksRelated(n: Node, names: Names, preimage: string, content: Bytes, sha: Sha, other: Names)
    requires names != [] && other != [] && n.Dir? && names != other
    requires !Unrelated(names, other)
    requires WriteAt(n, names, preimage, content, sha).ok
    ensures EntryAt(WriteAt(n, names, preimage, content, sha).node, other) in {Blocked, Refused}
    decreases |names|
  {
    assert names[0] == other[0];
    if |names| > 1 && |other| > 1 {
      assert names == [names[0]] + names[1..] && other == [other[0]] + other[1..];
      assert !Unrelated(names[1..], other[1..]) && names[1..] != other[1..];
      var child := if names[0] in n.children then n.children[names[0]] else Dir(map[]);
      WriteBlocksRelated(child, names[1..], preimage, content, sha, other[1..]);
    }
  }

  /** A write, refused or not, changes no other file, link or special file. */
  lemma {:induction false} WriteKeepsOtherLeaves(n: Node, names: Names, preimage: string, content: Bytes, sha: Sha, other: Names)
    requires names != [] && n.Dir? && other != names
    ensures LeafAt(WriteAt(n, names, preimage, content, sha).node, other) == LeafAt(n, other)
    decreases |names|
  {
    var w := WriteAt(n, names, preimage, content, sha);
    if other != [] && names[0] == other[0] {
      assert names == [names[0]] + names[1..] && other == [other[0]] + other[1..];
      if |names| > 1 {
        var child := if names[0] in n.children then n.children[names[0]] else Dir(map[]);
        assert other[1..] != names[1..];
        if child.Dir? {
          WriteKeepsOtherLeaves(child, names[1..], preimage, content, sha, other[1..]);
          assert NodeAt(w.node, other) == NodeAt(w.node.children[names[0]], other[1..]);
        }
      } else {
        assert |other| > 1;
        if names[0] in n.children {
          assert NodeAt(n, other) == NodeAt(n.children[names[0]], other[1..]);
        }
        if names[0] in w.node.children {
          assert NodeAt(w.node, other) == NodeAt(w.node.children[names[0]], other[1..]);
        }
      }
    }
  }
}
