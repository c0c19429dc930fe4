/**
 The store's view of a bundle file: parse it, keep what rollback needs, and
 serialize it into the image that is snapshotted (crates/hoike-core/src/state.rs).
 */
module Images {
  import opened Wrappers
  import opened Bytes
  import opened Marks
  import opened Commit
  import M = Manifest
  import B = Bundle

  function ScopesOf(ss: seq<M.CaScope>): (r: seq<Scope>)
    ensures |r| == |ss|
  {
    seq(|ss|, n requires 0 <= n < |ss| => Scope(ss[n].issuerNameHash, ss[n].issuerKeyHash, ss[n].epoch))
  }

  function InfoOf(c: B.Codec, b: B.Bundle): Info {
    Info(b.manifest.producerId, ScopesOf(b.manifest.caScopes), b.manifest.continuity.prevManifestDigest,
         c.sha(b.manifestBytes))
  }

  function LoadFile(c: B.Codec, f: Bytes): Option<Loaded> {
    match B.FromBytes(c, f)
    case Err(_) => None
    case Ok(b) =>
      if !B.Serializable(b) then None
      else match B.ToBytes(b)
        case Err(_) => None
        case Ok(image) => Some(Loaded(InfoOf(c, b), image))
  }

  /** A snapshot re-parses to the scopes, digest and image it was committed with. */
  lemma SnapshotReparses(c: B.Codec, f: Bytes)
    requires LoadFile(c, f).Some?
    ensures LoadFile(c, LoadFile(c, f).value.image) == LoadFile(c, f)
  {
    B.RewriteIsStable(c, f);
  }

  /** So the bundle format meets what the commit protocol assumes of it. */
  lemma FormatReparses(c: B.Codec, inPlay: Bytes -> bool)
    ensures Reparses(Env(c.sha, f => LoadFile(c, f), inPlay))
  {
    var env := Env(c.sha, f => LoadFile(c, f), inPlay);
    forall f | env.load(f).Some?
      ensures env.load(env.load(f).value.image) == env.load(f)
    {
      SnapshotReparses(c, f);
    }
  }
}
