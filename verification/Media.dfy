/** The vocabulary the store's tables share. */
module Media {

  datatype MediaSource = Sonarr | Radarr | Lidarr | Readarr | Whisparr | Directory

  /** What an item is: the `kind` tag of its spec. */
  datatype MediaKind = Episode | Movie | Track | Book

  datatype ShareState = Pending | Seeding | Unshared | Failed

  const ALL_SOURCES := [Sonarr, Radarr, Lidarr, Readarr, Whisparr, Directory]

  /** The sources admitted to a narrow scope by their items' kind. */
  const KIND_SCOPED := [Directory]

  function SourceName(s: MediaSource): string {
    match s
    case Sonarr => "sonarr"
    case Radarr => "radarr"
    case Lidarr => "lidarr"
    case Readarr => "readarr"
    case Whisparr => "whisparr"
    case Directory => "directory"
  }

  function KindTag(k: MediaKind): string {
    match k
    case Episode => "episode"
    case Movie => "movie"
    case Track => "track"
    case Book => "book"
  }

  function StateName(s: ShareState): string {
    match s
    case Pending => "pending"
    case Seeding => "seeding"
    case Unshared => "unshared"
    case Failed => "failed"
  }

  /** Stored names tell the values apart. */
  lemma NamesAreDistinct()
    ensures forall a, b :: SourceName(a) == SourceName(b) ==> a == b
    ensures forall a, b :: KindTag(a) == KindTag(b) ==> a == b
    ensures forall a, b :: StateName(a) == StateName(b) ==> a == b
  {
    forall a, b | SourceName(a) == SourceName(b) ensures a == b {
      assert SourceName(a)[0] == SourceName(b)[0] && |SourceName(a)| == |SourceName(b)|;
      assert SourceName(a)[2] == SourceName(b)[2];
    }
    forall a, b | KindTag(a) == KindTag(b) ensures a == b {
      assert KindTag(a)[0] == KindTag(b)[0];
    }
    forall a, b | StateName(a) == StateName(b) ensures a == b {
      assert StateName(a)[0] == StateName(b)[0];
    }
  }
}
