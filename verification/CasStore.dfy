/** The import and download procedures as one process runs them, over the same tree operations
    as the step machine. */
module CasStore {
  import opened Wrappers
  import opened Bytes
  import opened Strings
  import opened Digests
  import opened Filesystem
  import opened StageNames
  import opened StoreMachine
  import opened StoreSafety

  /** What a reader delivers before its first empty read, which ends the stream. */
  function Stream(chunks: seq<seq<byte>>): seq<byte>
    decreases |chunks|
  {
    if chunks == [] || chunks[0] == [] then [] else chunks[0] + Stream(chunks[1..])
  }

  /** The path `blob_path` settles on: the first location present, else the standard one. */
  function BlobPath(fs: Fs, d: Digest): Path
  {
    if Standard(d) in fs.files then Standard(d)
    else if FlatGguf(d) in fs.files then FlatGguf(d)
    else if FlatSafetensors(d) in fs.files then FlatSafetensors(d)
    else Standard(d)
  }

  /** The tree with `content` staged at `p`. */
  function Staged(fs: Fs, p: Path, ino: Inode, content: seq<byte>): Fs
  {
    Fs(fs.files[p := ino], fs.inodes[ino := content])
  }

  /** The inode a staging file gets: an abandoned file's own, or an unused one. */
  function StageInode(fs: Fs, p: Path, unused: Inode): Inode
  {
    if p in fs.files then fs.files[p] else unused
  }

  lemma CreateStages(fs: Fs, p: Path, unused: Inode)
    ensures Create(fs, p, unused) == Staged(fs, p, StageInode(fs, p, unused), [])
  {
    if p in fs.files {
      assert fs.files[p := fs.files[p]] == fs.files;
    }
  }

  lemma AppendStages(fs: Fs, p: Path, ino: Inode, content: seq<byte>, chunk: seq<byte>)
    ensures Append(Staged(fs, p, ino, content), ino, chunk) == Staged(fs, p, ino, content + chunk)
  {
  }

  lemma StreamStep(chunks: seq<seq<byte>>, i: nat, written: seq<byte>)
    requires i < |chunks| && chunks[i] != []
    ensures written + Stream(chunks[i..]) == written + chunks[i] + Stream(chunks[i + 1..])
  {
    assert chunks[i..][1..] == chunks[i + 1..];
    assert written + (chunks[i] + Stream(chunks[i + 1..])) == written + chunks[i] + Stream(chunks[i + 1..]);
  }

  /** Location `p` is present in both trees with the same content, or absent from both. */
  ghost predicate SameAt(fs: Fs, fs': Fs, p: Path)
  {
    && (p in fs.files <==> p in fs'.files)
    && (p in fs.files ==> fs.files[p] in fs.inodes && fs'.files[p] == fs.files[p]
                          && fs.files[p] in fs'.inodes && fs'.inodes[fs.files[p]] == fs.inodes[fs.files[p]])
  }

  /** Every path but the given ones is as it was. */
  ghost predicate SameBut(fs: Fs, fs': Fs, changed: set<Path>)
  {
    forall q: Path | q !in changed :: SameAt(fs, fs', q)
  }

  ghost predicate Holds(fs: Fs, p: Path, content: seq<byte>)
  {
    p in fs.files && fs.files[p] in fs.inodes && fs.inodes[fs.files[p]] == content
  }

  /** Staging touches no other file. */
  lemma StagingIsInvisible(h: Hash, fs: Fs, p: Path, unused: Inode, content: seq<byte>)
    requires TreeOk(h, fs) && p.Stage? && unused !in fs.inodes
    ensures var staged := Staged(fs, p, StageInode(fs, p, unused), content);
            TreeOk(h, staged) && Holds(staged, p, content) && SameBut(fs, staged, {p})
  {
  }

  /** Importing puts exactly the staged content at the target and changes no other file. */
  lemma ImportOutcome(h: Hash, fs: Fs, p: Path, unused: Inode, content: seq<byte>, target: Path)
    requires TreeOk(h, fs) && p.Stage? && unused !in fs.inodes && IsLocation(target, h(content))
    ensures var fs' := Rename(Staged(fs, p, StageInode(fs, p, unused), content), p, target);
            && TreeOk(h, fs') && p !in fs'.files && Holds(fs', target, content)
            && SameBut(fs, fs', {p, target})
  {
    StagingIsInvisible(h, fs, p, unused, content);
    RenameTree(h, Staged(fs, p, StageInode(fs, p, unused), content), p, target);
  }

  /** Giving up after staging leaves every other file as it was. */
  lemma RejectOutcome(h: Hash, fs: Fs, p: Path, unused: Inode, content: seq<byte>)
    requires TreeOk(h, fs) && p.Stage? && unused !in fs.inodes
    ensures var fs' := Unlink(Staged(fs, p, StageInode(fs, p, unused), content), p);
            TreeOk(h, fs') && p !in fs'.files && SameBut(fs, fs', {p})
  {
    StagingIsInvisible(h, fs, p, unused, content);
  }

  lemma StagedBlobPath(fs: Fs, p: Path, ino: Inode, content: seq<byte>, d: Digest)
    requires p.Stage?
    ensures BlobPath(Staged(fs, p, ino, content), d) == BlobPath(fs, d)
    ensures IsLocation(BlobPath(fs, d), d)
  {
  }

  /** The tree after a commit whose calls all succeed undisturbed. */
  function Committed(fs: Fs, stage: Path, format: Format, d: Digest): Fs
    requires stage.Stage? && stage in fs.files
  {
    var renamed := Rename(fs, stage, Flat(format, d));
    if Flat(format, d) in renamed.files then Link(Unlink(renamed, Standard(d)), Flat(format, d), Standard(d))
    else Unlink(renamed, Standard(d))
  }

  /** A commit leaves the flat and the standard location as two names of one inode, which holds
      the staged content, and changes no other file. */
  lemma CommitOutcome(h: Hash, fs: Fs, stage: Path, format: Format, content: seq<byte>)
    requires TreeOk(h, fs) && stage.Stage? && Holds(fs, stage, content)
    ensures var d := h(content);
            var fs' := Committed(fs, stage, format, d);
            && TreeOk(h, fs') && stage !in fs'.files
            && Holds(fs', Flat(format, d), content) && Holds(fs', Standard(d), content)
            && fs'.files[Standard(d)] == fs'.files[Flat(format, d)]
            && SameBut(fs, fs', {stage, Flat(format, d), Standard(d)})
  {
    RenameTree(h, fs, stage, Flat(format, h(content)));
  }

  datatype Failure = DigestMismatch(expected: string, computed: Digest) | NotFound(digest: Digest)

  class Store {
    const hash: Hash
    const pid: Pid
    var fs: Fs
    var tags: map<(string, string), Digest>
    var counter: nat

    constructor (hash: Hash, pid: Pid)
      ensures this.hash == hash && this.pid == pid && fs == Fs(map[], map[]) && tags == map[] && counter == 0
    {
      this.hash, this.pid, fs, tags, counter := hash, pid, Fs(map[], map[]), map[], 0;
    }

    /** A blob's size, from the location a reader would open. */
    method BlobSize(d: Digest) returns (r: Result<nat, Failure>)
      requires Backed(fs)
      ensures r == if Present(fs, d) then Ok(|fs.inodes[fs.files[BlobPath(fs, d)]]|) else Err(NotFound(d))
    {
      var p := BlobPath(fs, d);
      if p !in fs.files {
        return Err(NotFound(d));
      }
      return Ok(|fs.inodes[fs.files[p]]|);
    }

    /** Hashes and writes a stream into the staging file `p` until the stream ends. */
    method WriteAll(p: Path, ino: Inode, chunks: seq<seq<byte>>) returns (hashed: seq<byte>, total: nat)
      requires p in fs.files && fs.files[p] == ino && ino in fs.inodes && fs.inodes[ino] == []
      modifies this`fs
      ensures hashed == Stream(chunks) && total == |Stream(chunks)|
      ensures fs == Staged(old(fs), p, ino, Stream(chunks))
    {
      hashed, total := [], 0;
      ghost var before := fs;
      var i := 0;
      assert before.files[p := ino] == before.files && before.inodes[ino := []] == before.inodes;
      while i < |chunks| && chunks[i] != []
        invariant i <= |chunks| && total == |hashed| && hashed + Stream(chunks[i..]) == Stream(chunks)
        invariant fs == Staged(before, p, ino, hashed)
      {
        StreamStep(chunks, i, hashed);
        AppendStages(before, p, ino, hashed, chunks[i]);
        fs := Append(fs, ino, chunks[i]);
        hashed := hashed + chunks[i];
        total := total + |chunks[i]|;
        i := i + 1;
      }
    }

    /** Imports a stream under its own digest, unless another digest was expected. What is expected may be
        in letters of either case, with white space around it. */
    method StoreBlob(chunks: seq<seq<byte>>, expected: Option<string>, unused: Inode)
      returns (r: Result<(Digest, nat), Failure>)
      requires TreeOk(hash, fs) && unused !in fs.inodes
      modifies this`fs, this`counter
      ensures TreeOk(hash, fs) && counter == old(counter) + 1
      ensures StagePath(StageId.Import(pid, old(counter))) !in fs.files
      ensures var content := Stream(chunks);
              var d := hash(content);
              var staged, target := StagePath(StageId.Import(pid, old(counter))), old(BlobPath(fs, d));
              && (r.Ok? <==> DigestAccepted(d, expected))
              && (IsDigest(d) ==> (r.Ok? <==> expected.None? || Spelled(expected.value, d)))
              && if r.Ok?
                 then r == Ok((d, |content|)) && Holds(fs, target, content)
                      && SameBut(old(fs), fs, {staged, target})
                 else r == Err(DigestMismatch(Trim(expected.value), d))
                      && SameBut(old(fs), fs, {staged})
    {
      var p := StagePath(StageId.Import(pid, counter));
      counter := counter + 1;
      ghost var before := fs;
      var ino := StageInode(fs, p, unused);
      CreateStages(fs, p, unused);
      fs := Create(fs, p, unused);
      ghost var created := fs;
      var hashed, total := WriteAll(p, ino, chunks);
      assert Staged(created, p, ino, hashed) == Staged(before, p, ino, hashed);
      var d := hash(hashed);
      if expected.Some? && IsDigest(d) {
        SpelledIff(expected.value, d);
      }
      if expected.Some? && Lower(d) != Lower(Trim(expected.value)) {
        RejectOutcome(hash, before, p, unused, hashed);
        fs := Unlink(fs, p);
        return Err(DigestMismatch(Trim(expected.value), d));
      }
      StagedBlobPath(before, p, ino, hashed, d);
      ImportOutcome(hash, before, p, unused, hashed, BlobPath(before, d));
      fs := Rename(fs, p, BlobPath(fs, d));
      return Ok((d, total));
    }

    /** Commits a staged download: the flat file by rename, the standard file by hard link, then
        the tag. Run undisturbed it never finds the link's destination taken. */
    method CommitArtifact(stage: Path, content: seq<byte>, format: Format, name: string, tag: string)
      requires TreeOk(hash, fs) && stage.Stage? && Holds(fs, stage, content)
      modifies this`fs, this`tags
      ensures var d := hash(content);
              var flat := if format.Gguf? then FlatGguf(d) else FlatSafetensors(d);
              && fs == Committed(old(fs), stage, format, d) && TreeOk(hash, fs) && stage !in fs.files
              && Holds(fs, flat, content) && Holds(fs, Standard(d), content)
              && fs.files[Standard(d)] == fs.files[flat]
              && SameBut(old(fs), fs, {stage, flat, Standard(d)})
              && tags == old(tags)[(name, tag) := d]
    {
      var d := hash(content);
      var flat := Flat(format, d);
      CommitOutcome(hash, fs, stage, format, content);
      fs := Rename(fs, stage, flat);
      fs := Unlink(fs, Standard(d));
      if flat in fs.files {
        fs := Link(fs, flat, Standard(d));
      }
      tags := tags[(name, tag) := d];
    }
  }
}
