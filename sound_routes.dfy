/**
 * The two handlers of server/src/routes/api/sound.js around `calculateWave`:
 * where an uploaded sound is stored (lines 14, 18-39) and which stored file
 * the wave handler reads (lines 96-118). The filesystem is a map from paths
 * to contents; reading and decoding a file is a parameter.
 */
module SoundRoutes {
  import opened Wrappers
  import opened Samples
  import opened Chunks
  import opened Wave

  /** `EXTENSION`: every converted sound is stored as mp3. */
  const Extension: string := "mp3"

  type Bytes = seq<bv8>

  /** The two directories the handlers resolve against: `UPLOAD_PATH` and `PUBLIC_PATH`. */
  datatype Root = UploadRoot | PublicRoot

  /** `path.resolve(root, relative)`, kept as its two parts. */
  datatype FilePath = FilePath(root: Root, relative: string)

  /** `path.resolve(root, `./sounds/${soundId}.${EXTENSION}`)`. */
  function SoundFile(root: Root, soundId: string): (f: FilePath)
    ensures f.root == root
    ensures |f.relative| == |"sounds/"| + |soundId| + 1 + |Extension|
    ensures f.relative[..7] == "sounds/"
    ensures f.relative[7..7 + |soundId|] == soundId
    ensures f.relative[7 + |soundId|..] == "." + Extension
  {
    FilePath(root, "sounds/" + soundId + "." + Extension)
  }

  /** Distinct ids, or distinct roots, never share a file. */
  lemma SoundFileInjective(root1: Root, id1: string, root2: Root, id2: string)
    requires SoundFile(root1, id1) == SoundFile(root2, id2)
    ensures root1 == root2 && id1 == id2
  {
    assert |id1| == |SoundFile(root1, id1).relative| - 11 == |id2|;
  }

  /**
   * The wave handler's lookup: the upload copy first, the public copy only
   * when there is no upload copy, not-found only when neither exists.
   */
  function LocateSound(soundId: string, existing: set<FilePath>): (found: Option<FilePath>)
    ensures found.None? <==>
              SoundFile(UploadRoot, soundId) !in existing && SoundFile(PublicRoot, soundId) !in existing
    ensures SoundFile(UploadRoot, soundId) in existing ==> found == Some(SoundFile(UploadRoot, soundId))
    ensures SoundFile(UploadRoot, soundId) !in existing && SoundFile(PublicRoot, soundId) in existing ==>
              found == Some(SoundFile(PublicRoot, soundId))
  {
    if SoundFile(UploadRoot, soundId) in existing then Some(SoundFile(UploadRoot, soundId))
    else if SoundFile(PublicRoot, soundId) in existing then Some(SoundFile(PublicRoot, soundId))
    else None
  }

  /** `{ artist, title }` as the metadata extractor returns them. */
  datatype Metadata = Metadata(artist: Option<string>, title: Option<string>)

  /** The JSON body of a successful upload. */
  datatype UploadReply = UploadReply(artist: Option<string>, id: string, title: Option<string>)

  /**
   * `POST /sounds` once the session and body checks pass: `soundId` is the
   * fresh uuid, `metadata` and `converted` the outputs of the extractor and
   * the converter. Returns the new files and the reply.
   */
  function PostSound(files: map<FilePath, Bytes>, soundId: string, metadata: Metadata, converted: Bytes)
    : (r: (map<FilePath, Bytes>, UploadReply))
    ensures r.1 == UploadReply(metadata.artist, soundId, metadata.title)
    ensures r.0.Keys == files.Keys + {SoundFile(UploadRoot, soundId)}
    ensures r.0[SoundFile(UploadRoot, soundId)] == converted
    ensures forall p :: p in files && p != SoundFile(UploadRoot, soundId) ==> r.0[p] == files[p]
    ensures SoundFile(UploadRoot, soundId) !in files ==>
              forall p :: p in files ==> p in r.0 && r.0[p] == files[p]
  {
    (files[SoundFile(UploadRoot, soundId) := converted], UploadReply(metadata.artist, soundId, metadata.title))
  }

  /** The id an upload replies with finds the upload copy, holding the converted bytes. */
  lemma UploadThenLocate(files: map<FilePath, Bytes>, soundId: string, metadata: Metadata, converted: Bytes)
    ensures var (stored, reply) := PostSound(files, soundId, metadata, converted);
            && LocateSound(reply.id, stored.Keys) == Some(SoundFile(UploadRoot, soundId))
            && stored[SoundFile(UploadRoot, soundId)] == converted
  {
  }

  /** An upload changes the lookup of no other id. */
  lemma UploadKeepsOtherLookups(files: map<FilePath, Bytes>, soundId: string, metadata: Metadata,
                                converted: Bytes, other: string)
    requires other != soundId
    ensures LocateSound(other, PostSound(files, soundId, metadata, converted).0.Keys) == LocateSound(other, files.Keys)
  {
    var added := SoundFile(UploadRoot, soundId);
    if added == SoundFile(UploadRoot, other) {
      SoundFileInjective(UploadRoot, soundId, UploadRoot, other);
    }
    if added == SoundFile(PublicRoot, other) {
      SoundFileInjective(UploadRoot, soundId, PublicRoot, other);
    }
  }

  /** Two decoded channels, the right one at least as long as the left one. */
  type Channels = c: (seq<real>, seq<real>) | |c.0| <= |c.1| witness ([], [])

  /** What `GET /sounds/:soundId/wave` answers. */
  datatype WaveReply =
    | NotFound              // 404: no stored file
    | Undecodable           // the decoder rejected the file
    | NoPeaks               // `reduce` threw on an empty peak list
    | WaveBody(wave: Wave)  // 200 with `{ max, peaks }`

  /** The answer for a located file, given what decoding it produced. */
  function WaveAnswer(decoded: Option<Channels>): WaveReply
  {
    match decoded
    case None => Undecodable
    case Some(c) =>
      match WaveOf(c.0, c.1)
      case Err(_) => NoPeaks
      case Ok(w) => WaveBody(w)
  }

  /**
   * The wave handler: reassigns `filePath` from the upload copy to the public
   * copy when the first is missing, answers not-found when that is missing
   * too, and otherwise reads, decodes and reduces the file.
   */
  method GetWave(soundId: string, existing: set<FilePath>, decode: FilePath -> Option<Channels>)
    returns (reply: WaveReply)
    ensures reply == NotFound <==>
              SoundFile(UploadRoot, soundId) !in existing && SoundFile(PublicRoot, soundId) !in existing
    ensures LocateSound(soundId, existing).Some? ==>
              reply == WaveAnswer(decode(LocateSound(soundId, existing).value))
    ensures reply.WaveBody? ==> 1 <= |reply.wave.peaks| <= TargetChunks && reply.wave.max >= 0.0
  {
    var filePath := SoundFile(UploadRoot, soundId);
    if filePath !in existing {
      filePath := SoundFile(PublicRoot, soundId);
    }
    if filePath !in existing {
      return NotFound;
    }
    match decode(filePath)
    case None =>
      reply := Undecodable;
    case Some(channels) =>
      var wave := CalculateWave(channels.0, channels.1);
      WaveShape(channels.0, channels.1);
      match wave
      case Err(_) =>
        reply := NoPeaks;
      case Ok(w) =>
        reply := WaveBody(w);
  }
}
