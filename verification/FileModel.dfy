/** Files, their digests and the manifest entry that describes them
    (internal/filesync/manifest.go, internal/filesync/eol.go). */
module FileModel {
  import opened ByteSeq

  const CR: Byte := 13

  /** What this model does not look into: SHA-256 in hexadecimal, and the table of text paths. */
  datatype World = World(sha: Bytes -> string, isText: string -> bool)

  ghost predicate Injective(w: World) {
    forall a, b :: w.sha(a) == w.sha(b) ==> a == b
  }

  ghost predicate NeverEmpty(w: World) {
    forall a :: w.sha(a) != ""
  }

  datatype File = File(content: Bytes, modTime: int, fileID: string)

  datatype FileInfo = FileInfo(
    path: string, size: nat, modTime: int, fileID: string, hash: string, normHash: string,
    version: int, deleted: bool, partialBytes: nat, partialEtag: string)

  function StripCR(b: Bytes): Bytes {
    if b == [] then [] else (if b[0] == CR then [] else [b[0]]) + StripCR(b[1..])
  }

  lemma {:induction false} StripCRConcat(a: Bytes, b: Bytes)
    ensures StripCR(a + b) == StripCR(a) + StripCR(b)
  {
    if a == [] {
      assert a + b == b;
    } else {
      StripCRConcat(a[1..], b);
      StripCRCons(a[0], a[1..]);
      StripCRCons(a[0], a[1..] + b);
      assert a == [a[0]] + a[1..] && a + b == [a[0]] + (a[1..] + b);
    }
  }

  lemma StripCRCons(x: Byte, rest: Bytes)
    ensures StripCR([x] + rest) == (if x == CR then [] else [x]) + StripCR(rest)
  {
    assert ([x] + rest)[1..] == rest;
  }

  /** statFile: the entry for a file on disk. */
  function InfoOf(w: World, path: string, f: File): FileInfo {
    FileInfo(path, |f.content|, f.modTime, f.fileID, w.sha(f.content),
             if w.isText(path) then w.sha(StripCR(f.content)) else "", 0, false, 0, "")
  }

  predicate SameContent(a: FileInfo, b: FileInfo) {
    (a.hash != "" && a.hash == b.hash) || (a.normHash != "" && a.normHash == b.normHash)
  }

  /** Equal bytes or, in a text file, bytes that differ in carriage returns only. */
  predicate Equivalent(w: World, path: string, a: Bytes, b: Bytes) {
    a == b || (w.isText(path) && StripCR(a) == StripCR(b))
  }

  lemma SameContentIsEquivalence(w: World, path: string, f: File, g: File)
    requires Injective(w) && NeverEmpty(w)
    ensures SameContent(InfoOf(w, path, f), InfoOf(w, path, g)) <==> Equivalent(w, path, f.content, g.content)
  {
    assert w.sha(f.content) != "";
    assert w.isText(path) ==> w.sha(StripCR(f.content)) != "";
  }

  /** Both digests of a file in one pass, whatever block sizes the reads return: block boundaries
      leave no trace, even one that falls inside a CR LF pair. */
  method ComputeFileHashes(w: World, path: string, blocks: seq<Bytes>)
    returns (rawHash: string, normHash: string, size: nat)
    ensures rawHash == InfoOf(w, path, File(Flatten(blocks), 0, "")).hash
    ensures normHash == InfoOf(w, path, File(Flatten(blocks), 0, "")).normHash
    ensures size == |Flatten(blocks)|
  {
    var wantNorm := w.isText(path);
    var raw, norm: Bytes := [], [];
    size := 0;
    for i := 0 to |blocks|
      invariant raw == Flatten(blocks[..i]) && size == |raw|
      invariant wantNorm ==> norm == StripCR(raw)
    {
      var block := blocks[i];
      assert blocks[..i + 1] == blocks[..i] + [block];
      FlattenSnoc(blocks[..i], block);
      StripCRConcat(raw, block);
      raw, size := raw + block, size + |block|;
      if wantNorm {
        var stripped: Bytes := [];
        for j := 0 to |block|
          invariant stripped == StripCR(block[..j])
        {
          assert block[..j + 1] == block[..j] + [block[j]];
          StripCRConcat(block[..j], [block[j]]);
          if block[j] != CR {
            stripped := stripped + [block[j]];
          }
        }
        assert block[..|block|] == block;
        norm := norm + stripped;
      }
    }
    assert blocks[..|blocks|] == blocks;
    rawHash := w.sha(raw);
    normHash := if wantNorm then w.sha(norm) else "";
  }
}
