/** When the path a scan records leads back to the file it scanned. */
module ChangesetPaths {
  import opened Common
  import opened FileTree
  import opened GitBroker
  import opened Utf8

  predicate NoBackslash(names: Names) {
    forall i :: 0 <= i < |names| ==> '\\' !in names[i]
  }

  predicate AllText(names: Names) {
    forall i :: 0 <= i < |names| ==> IsText(names[i])
  }

  // ----- Paths of text -----

  lemma {:induction false} JoinIsText(names: Names)
    ensures IsText(Join(names)) <==> AllText(names)
  {
    if |names| <= 1 {
    } else {
      JoinIsText(names[1..]);
      assert Join(names) == names[0] + ['/'] + Join(names[1..]);
      TextAround(names[0], '/', Join(names[1..]));
      assert names == [names[0]] + names[1..];
      assert forall i :: 0 <= i < |names[1..]| ==> names[1..][i] == names[i + 1];
      assert AllText(names) <==> IsText(names[0]) && AllText(names[1..]);
    }
  }

  lemma {:induction false} JoinSplit(s: string)
    ensures Join(Split(s)) == s
  {
    if s == [] {
    } else {
      var rest := Split(s[1..]);
      JoinSplit(s[1..]);
      assert s == [s[0]] + s[1..];
      if s[0] == '/' {
        assert ([[]] + rest)[1..] == rest;
      } else if |rest| > 1 {
        assert ([[s[0]] + rest[0]] + rest[1..])[1..] == rest[1..];
      }
    }
  }

  /** A recorded path is text. */
  lemma RelPathIsText(names: Names)
    ensures IsText(RelPath(names))
  {
    ShownAsItselfExactlyWhen(Join(names));
    AlikeIsText(RelPath(names), Lossy(Join(names)));
  }

  lemma {:induction false} LaterComponentIsPiece(pieces: seq<string>, k: nat)
    requires k < |LaterComponents(pieces)| && LaterComponents(pieces)[k].Normal?
    ensures LaterComponents(pieces)[k].name in pieces
    decreases |pieces|
  {
    if pieces[0] == "" || pieces[0] == "." {
      LaterComponentIsPiece(pieces[1..], k);
    } else if k > 0 {
      LaterComponentIsPiece(pieces[1..], k - 1);
    }
  }

  lemma WalkedNameIsPiece(rel: string, k: nat)
    requires NamesOf(rel).Some? && k < |NamesOf(rel).value|
    ensures NamesOf(rel).value[k] in Split(rel)
  {
    assert Components(rel)[k] in Components(rel);
    assert Components(rel)[0] in Components(rel);
    assert Components(rel) == LaterComponents(Split(rel));
    LaterComponentIsPiece(Split(rel), k);
  }

  lemma SplitAtSlash(piece: string, rest: string)
    requires '/' !in piece
    ensures Split(piece + "/" + rest) == [piece] + Split(rest)
  {
    var s := piece + "/" + rest;
    if piece != [] {
      assert s[1..] == piece[1..] + "/" + rest;
      SplitAtSlash(piece[1..], rest);
      assert [piece[0]] + piece[1..] == piece;
    } else {
      assert s[1..] == rest;
    }
  }

  lemma SplitWhole(piece: string)
    requires '/' !in piece
    ensures Split(piece) == [piece]
  {
    if piece == [] {
    } else {
      SplitWhole(piece[1..]);
      assert [piece[0]] + piece[1..] == piece;
    }
  }

  lemma SplitJoin(names: Names)
    requires FileNames(names)
    ensures Split(Join(names)) == names
  {
    if |names| == 1 {
      SplitWhole(names[0]);
    } else {
      SplitAtSlash(names[0], Join(names[1..]));
      SplitJoin(names[1..]);
    }
  }

  lemma LaterComponentsOfNames(names: Names)
    requires forall i :: 0 <= i < |names| ==> FileName(names[i])
    ensures |LaterComponents(names)| == |names|
    ensures forall i :: 0 <= i < |names| ==> LaterComponents(names)[i] == Normal(names[i])
  {
    if names == [] {
    } else {
      LaterComponentsOfNames(names[1..]);
    }
  }

  lemma JoinCharacters(names: Names, c: char)
    requires c in Join(names) && c != '/'
    ensures exists i :: 0 <= i < |names| && c in names[i]
  {
    if |names| > 1 && c !in names[0] {
      JoinCharacters(names[1..], c);
      var i :| 0 <= i < |names[1..]| && c in names[1..][i];
      assert c in names[i + 1];
    } else {
      assert c in names[0];
    }
  }

  lemma SplitCharacters(s: string, i: nat, c: char)
    requires i < |Split(s)| && c in Split(s)[i]
    ensures c in s
  {
    if s == [] {
    } else {
      var rest := Split(s[1..]);
      if s[0] == '/' {
        if i > 0 {
          SplitCharacters(s[1..], i - 1, c);
        }
      } else if i == 0 {
        if c != s[0] {
          SplitCharacters(s[1..], 0, c);
        }
      } else {
        SplitCharacters(s[1..], i, c);
      }
    }
  }

  /** A recorded path walks names that are text and hold no backslash. */
  lemma RecordedPathWalksText(names: Names)
    requires NamesOf(RelPath(names)).Some?
    ensures AllText(NamesOf(RelPath(names)).value) && NoBackslash(NamesOf(RelPath(names)).value)
  {
    var rel := RelPath(names);
    RelPathIsText(names);
    JoinSplit(rel);
    JoinIsText(Split(rel));
    forall k | 0 <= k < |NamesOf(rel).value|
      ensures IsText(NamesOf(rel).value[k]) && '\\' !in NamesOf(rel).value[k]
    {
      WalkedNameIsPiece(rel, k);
      if '\\' in NamesOf(rel).value[k] {
        var i :| 0 <= i < |Split(rel)| && Split(rel)[i] == NamesOf(rel).value[k];
        SplitCharacters(rel, i, '\\');
      }
    }
  }

  /** The recorded path walks back to the scanned file exactly when every name
      on the way is text and holds no backslash: what is not text is recorded as
      replacement characters, and a backslash as a separator. */
  lemma RecordedPathLeadsBack(names: Names)
    requires FileNames(names)
    ensures NamesOf(RelPath(names)) == Some(names) <==> AllText(names) && NoBackslash(names)
  {
    if AllText(names) && NoBackslash(names) {
      TextWithoutBackslash(names);
      SplitJoin(names);
      LaterComponentsOfNames(names);
      var joined := Join(names);
      assert joined[0] == names[0][0];
      assert Components(joined) == LaterComponents(names);
      assert NormalNames(Components(joined)) == names;
    } else if NamesOf(RelPath(names)) == Some(names) {
      RecordedPathWalksText(names);
    }
  }

  lemma TextWithoutBackslash(names: Names)
    requires AllText(names) && NoBackslash(names)
    ensures RelPath(names) == Join(names)
  {
    JoinIsText(names);
    var joined := Join(names);
    if '\\' in joined {
      JoinCharacters(names, '\\');
    }
  }

  /** Every file a scan visits can be recorded faithfully. A file system
      guarantees all of it but the absence of backslashes and of bytes that are
      not text. */
  ghost predicate Recordable(agent: Node) {
    forall names :: Scanned(agent, names) ==> FileNames(names) && AllText(names) && NoBackslash(names)
  }

  // ----- Backslashes -----

  /** A workspace with the file `a\b` beside the directory `a` holding `b`. */
  function BackslashWorkspace(content: Bytes): Node {
    Dir(map["a\\b" := File(content), "a" := Dir(map["b" := File(content)])])
  }

  lemma BackslashWorkspaceScan(content: Bytes, names: Names)
    ensures Scanned(BackslashWorkspace(content), names) <==> names in [["a\\b"], ["a", "b"]]
  {
    var below := Dir(map["b" := File(content)]);
    if names != [] {
      var rest := names[1..];
      assert names == [names[0]] + rest;
      assert Scanned(File(content), rest) == false;
      assert Scanned(below, rest) <==> rest == ["b"] by {
        if rest != [] {
          assert rest == [rest[0]] + rest[1..];
          assert Scanned(File(content), rest[1..]) == false;
        }
      }
      assert ["a", "b"][1..] == ["b"];
      assert names == ["a", "b"] <==> names[0] == "a" && rest == ["b"];
      assert names == ["a\\b"] <==> names[0] == "a\\b" && rest == [];
    }
  }

  lemma BackslashPaths()
    ensures RelPath(["a", "b"]) == "a/b" && NamesOf("a/b") == Some(["a", "b"])
  {
    assert ["a", "b"][1..] == ["b"];
    assert Join(["a", "b"]) == "a/b";
    PlainPath(["a", "b"]);
  }

  /** Names in ASCII without separators are recorded as they are. */
  lemma PlainPath(names: Names)
    requires FileNames(names) && NoBackslash(names) && forall i :: 0 <= i < |names| ==> Ascii(names[i])
    ensures RelPath(names) == Join(names) && NamesOf(Join(names)) == Some(names)
  {
    forall i | 0 <= i < |names|
      ensures IsText(names[i])
    {
      AsciiIsText(names[i]);
    }
    TextWithoutBackslash(names);
    RecordedPathLeadsBack(names);
  }

  lemma BackslashPath()
    ensures RelPath(["a\\b"]) == "a/b"
  {
    AsciiIsText("a\\b");
    assert Join(["a\\b"]) == "a\\b";
  }

  lemma BackslashWalk(content: Bytes)
    ensures EntryAt(BackslashWorkspace(content), ["a", "b"]) == Regular(content)
  {
    var below := Dir(map["b" := File(content)]);
    assert ["a", "b"][1..] == ["b"];
    assert EntryAt(below, ["b"]) == Regular(content);
    assert BackslashWorkspace(content).children["a"] == below;
  }

  lemma BackslashWorkspaceChange(content: Bytes, names: Names, sha: Sha)
    requires sha(content) != NULL_HASH
    requires names == ["a\\b"] || names == ["a", "b"]
    ensures ChangeOf(BackslashWorkspace(content), Dir(map[]), names, sha) ==
            Ok(Some(FileChange("a/b", NULL_HASH, sha(content))))
  {
    BackslashPaths();
    BackslashPath();
    BackslashWalk(content);
  }

  /** On a system whose names may hold a backslash, one scan can record two
      files under one path, though their names differ. */
  lemma BackslashRecordsTwice(content: Bytes, sha: Sha)
    requires sha(content) != NULL_HASH
    ensures var change := FileChange("a/b", NULL_HASH, sha(content));
            IsInspection(BackslashWorkspace(content), Dir(map[]), [["a\\b"], ["a", "b"]], [change, change], sha)
  {
    var agent := BackslashWorkspace(content);
    var first, second := ["a\\b"], ["a", "b"];
    assert |first| != |second|;
    forall names
      ensures names in [first, second] <==> Scanned(agent, names)
    {
      BackslashWorkspaceScan(content, names);
    }
    BackslashWorkspaceChange(content, first, sha);
    BackslashWorkspaceChange(content, second, sha);
    CollectTwo(agent, Dir(map[]), first, second, sha);
  }

  lemma CollectTwo(agent: Node, primary: Node, first: Names, second: Names, sha: Sha)
    requires agent.Dir? && primary.Dir?
    requires ChangeOf(agent, primary, first, sha).Ok? && ChangeOf(agent, primary, first, sha).value.Some?
    requires ChangeOf(agent, primary, second, sha).Ok? && ChangeOf(agent, primary, second, sha).value.Some?
    ensures Collect(agent, primary, [first, second], sha)
         == [ChangeOf(agent, primary, first, sha).value.value, ChangeOf(agent, primary, second, sha).value.value]
  {
    assert [first, second] == [first] + [second];
    CollectAppend(agent, primary, [first], [second], sha);
    CollectOne(agent, primary, first, sha);
    CollectOne(agent, primary, second, sha);
  }
}
