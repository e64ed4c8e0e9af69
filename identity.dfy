/**
 * How tagger.py names a wallpaper: by the key the user gives, or by the
 * hexadecimal digest of the file's bytes, read in chunks of BUF_SIZE.
 * The file system is a map from readable paths to their contents, and the
 * digest (MD5 rendered as hex) is a function passed in.
 */
module Identity {
  import opened Wrappers

  newtype byte = x: int | 0 <= x < 256

  /** The chunk size of get_file_hash's reads. */
  const BUF_SIZE: nat := 1024

  /** The errors resolving an identity can raise. */
  datatype Error =
    | NoFilename                   // open(None): neither a usable key nor a file name
    | UnreadableFile(path: string) // open or read of the path fails

  /**
   * `f.read(n)` on a file whose contents are `contents`, positioned at `pos`:
   * the next at most `n` bytes, empty only at the end of the file.
   */
  function Read(contents: seq<byte>, pos: nat, n: nat): (chunk: seq<byte>)
    requires pos <= |contents|
    ensures |chunk| <= n && pos + |chunk| <= |contents|
    ensures chunk == contents[pos..pos + |chunk|]
    ensures |chunk| == n || pos + |chunk| == |contents|
  {
    if |contents| - pos <= n then contents[pos..] else contents[pos..pos + n]
  }

  /**
   * get_file_hash: feeds the file to the checksum one chunk at a time until a
   * read comes back empty. The checksum is a function of the bytes fed to it,
   * so `fed` stands for its state, and its hex digest is `digest(fed)`.
   */
  method FileHash(contents: seq<byte>, digest: seq<byte> -> string) returns (hash: string)
    ensures hash == digest(contents)
  {
    var fed: seq<byte> := [];
    var pos: nat := 0;
    while true
      invariant pos <= |contents|
      invariant fed == contents[..pos]
      decreases |contents| - pos
    {
      var data := Read(contents, pos, BUF_SIZE);
      if data == [] {
        break;
      }
      fed := fed + data;
      pos := pos + |data|;
    }
    assert fed == contents;
    hash := digest(fed);
  }

  /**
   * resolve_key: a key the user gave is returned as it is, unless it is empty
   * (Python treats "" as false); otherwise the file named is hashed.
   */
  method ResolveKey(key: Option<string>, filename: Option<string>,
                    files: map<string, seq<byte>>, digest: seq<byte> -> string)
    returns (r: Result<string, Error>)
    ensures key.Some? && key.value != "" ==> r == Ok(key.value)
    ensures (key.None? || key.value == "") && filename.None? ==> r == Err(NoFilename)
    ensures (key.None? || key.value == "") && filename.Some? && filename.value !in files ==>
      r == Err(UnreadableFile(filename.value))
    ensures (key.None? || key.value == "") && filename.Some? && filename.value in files ==>
      r == Ok(digest(files[filename.value]))
  {
    if key.Some? && key.value != "" {
      return Ok(key.value);
    }
    if filename.None? {
      return Err(NoFilename);
    }
    if filename.value !in files {
      return Err(UnreadableFile(filename.value));
    }
    var hash := FileHash(files[filename.value], digest);
    r := Ok(hash);
  }
}
