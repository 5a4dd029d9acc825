/** The directory tree the writers share: names to inodes, inodes to contents. */
module Filesystem {
  import opened Bytes

  type Digest = string

  /** Where a file can be: staged under `cas/incoming`, or at one of the three locations of a digest. */
  datatype Path =
    | Stage(name: string)
    | Standard(digest: Digest)
    | FlatGguf(digest: Digest)
    | FlatSafetensors(digest: Digest)

  type Inode = nat

  datatype Fs = Fs(files: map<Path, Inode>, inodes: map<Inode, seq<byte>>)

  /** Opens `p` for writing from scratch: a new inode, or the existing one truncated in place. */
  function Create(fs: Fs, p: Path, unused: Inode): Fs
  {
    if p in fs.files then fs.(inodes := fs.inodes[fs.files[p] := []])
    else Fs(fs.files[p := unused], fs.inodes[unused := []])
  }

  function Append(fs: Fs, ino: Inode, chunk: seq<byte>): Fs
    requires ino in fs.inodes
  {
    fs.(inodes := fs.inodes[ino := fs.inodes[ino] + chunk])
  }

  /** Moves `from` over `to`; two names of one inode are left as they are. */
  function Rename(fs: Fs, from: Path, to: Path): Fs
    requires from in fs.files
  {
    if to in fs.files && fs.files[to] == fs.files[from] then fs
    else fs.(files := (fs.files - {from})[to := fs.files[from]])
  }

  function Unlink(fs: Fs, p: Path): Fs
  {
    fs.(files := fs.files - {p})
  }

  function Link(fs: Fs, from: Path, to: Path): Fs
    requires from in fs.files && to !in fs.files
  {
    fs.(files := fs.files[to := fs.files[from]])
  }

  /** The three locations of a digest in the order readers look for it. */
  function Location(d: Digest, k: nat): Path
  {
    if k == 0 then Standard(d) else if k == 1 then FlatGguf(d) else FlatSafetensors(d)
  }

  predicate Present(fs: Fs, d: Digest)
  {
    Standard(d) in fs.files || FlatGguf(d) in fs.files || FlatSafetensors(d) in fs.files
  }
}
