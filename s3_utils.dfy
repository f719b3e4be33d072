/** The object-store key under which a playlist's table is kept. */
module S3Utils {
  import opened PyStr
  import opened Metadata

  /** "<user>/<title>.csv". */
  function GetS3Key(metadata: PlaylistMetadata): (r: string)
    ensures |r| == |metadata.user| + |metadata.title| + 5
    ensures r[|r| - 4..] == ".csv"
    ensures r[..|metadata.user|] == metadata.user && r[|metadata.user|] == '/'
    ensures r[|metadata.user| + 1..|r| - 4] == metadata.title
  {
    metadata.user + "/" + metadata.title + ".csv"
  }

  /** When the user name holds no "/", the key splits back into user and title
      at its first "/" and before ".csv". */
  lemma S3KeyDecomposes(metadata: PlaylistMetadata)
    requires '/' !in metadata.user
    ensures var key := GetS3Key(metadata);
            var i := IndexOf(key, '/');
            i < |key| - 4 && key[..i] == metadata.user && key[i + 1..|key| - 4] == metadata.title
  {
    var key := GetS3Key(metadata);
    IndexOfFirst(metadata.user, '/', metadata.title + ".csv");
    assert key == metadata.user + ['/'] + (metadata.title + ".csv");
  }

  /** Two playlists whose user names hold no "/" share a key only when they
      have the same user and title. */
  lemma S3KeyInjective(a: PlaylistMetadata, b: PlaylistMetadata)
    requires '/' !in a.user && '/' !in b.user
    requires GetS3Key(a) == GetS3Key(b)
    ensures a.user == b.user && a.title == b.title
  {
    S3KeyDecomposes(a);
    S3KeyDecomposes(b);
  }
}
