/**
 The signed update: what the signature covers, and the checks that stand between a downloaded
 manifest and the installed binary.
 */
module SignedUpdate {

  import opened Outcomes
  import opened Text
  import opened Bytes
  import opened FileSystem
  import opened Utf8
  import opened SelfUpdate

  datatype Manifest = Manifest(version: string, artifactUrl: string, sha256: string, signature: string)

  // ----- what the signature covers -----

  const HEADER := "verdictan-signed-update-v1\n"

  function SignedText(m: Manifest): (text: string) {
    HEADER + m.version + "\n" + m.artifactUrl + "\n" + m.sha256 + "\n"
  }

  function ManifestSignedBytes(m: Manifest): (bytes: seq<Byte>) { Encode(SignedText(m)) }

  /** The characters of a semantic version. */
  predicate VersionChar(c: char) {
    '0' <= c <= '9' || 'a' <= c <= 'z' || 'A' <= c <= 'Z' || c == '.' || c == '-' || c == '+'
  }

  predicate HexDigit(c: char) { '0' <= c <= '9' || 'a' <= c <= 'f' }

  function LowerChar(c: char): (d: char) {
    if 'A' <= c <= 'Z' then (c as int + 32) as char else c
  }

  /** `to_ascii_lowercase` */
  function Lower(s: string): (r: string)
    ensures |r| == |s|
  {
    seq(|s|, i requires 0 <= i < |s| => LowerChar(s[i]))
  }

  /** A hexadecimal SHA-256 digest. */
  predicate DigestText(s: string) { |s| == 64 && forall i | 0 <= i < |s| :: HexDigit(s[i]) }

  predicate VersionText(s: string) { forall i | 0 <= i < |s| :: VersionChar(s[i]) }

  /** Lines with no break in the first and a last one of known length are determined by the text. */
  lemma {:induction false} LinesAreDetermined(
      header: string, v: string, u: string, d: string, v': string, u': string, d': string)
    requires '\n' !in v && '\n' !in v' && |d| == |d'|
    requires header + v + "\n" + u + "\n" + d + "\n" == header + v' + "\n" + u' + "\n" + d' + "\n"
    ensures v == v' && u == u' && d == d'
  {
    var tail, tail' := "\n" + d + "\n", "\n" + d' + "\n";
    var rest, rest' := "\n" + (u + tail), "\n" + (u' + tail');
    var text, text' := header + (v + rest), header + (v' + rest');
    assert text == header + v + "\n" + u + "\n" + d + "\n";
    assert text' == header + v' + "\n" + u' + "\n" + d' + "\n";
    assert v + rest == text[|header|..] == text'[|header|..] == v' + rest';
    CutAtFirst('\n', v, rest, v', rest');
    assert u + tail == rest[1..] == rest'[1..] == u' + tail';
    CutAtLength(u, tail, u', tail');
    assert d == tail[1..][..|d|] && d' == tail'[1..][..|d'|];
  }

  /**
   Equal signed bytes mean equal version, address and checksum, whatever the address contains,
   as soon as the version is a version and the checksum matches a digest.
   */
  lemma {:induction false} SignatureCoversManifest(m: Manifest, n: Manifest)
    requires VersionText(m.version) && VersionText(n.version)
    requires DigestText(Lower(m.sha256)) && DigestText(Lower(n.sha256))
    requires ManifestSignedBytes(m) == ManifestSignedBytes(n)
    ensures m.version == n.version && m.artifactUrl == n.artifactUrl && m.sha256 == n.sha256
  {
    EncodeInjective(SignedText(m), SignedText(n));
    LinesAreDetermined(HEADER, m.version, m.artifactUrl, m.sha256, n.version, n.artifactUrl, n.sha256);
  }

  /** Without the version check the same bytes can be read as another manifest. */
  lemma UncheckedVersionsCollide(sha: string, signature: string)
    ensures var m := Manifest("1.0.0\nhttps://a", "https://b", sha, signature);
            var n := Manifest("1.0.0", "https://a\nhttps://b", sha, signature);
            ManifestSignedBytes(m) == ManifestSignedBytes(n) && m.artifactUrl != n.artifactUrl
  {
    var m := Manifest("1.0.0\nhttps://a", "https://b", sha, signature);
    var n := Manifest("1.0.0", "https://a\nhttps://b", sha, signature);
    assert m.version + "\n" + m.artifactUrl == n.version + "\n" + n.artifactUrl;
    assert SignedText(m) == HEADER + (m.version + "\n" + m.artifactUrl) + "\n" + sha + "\n";
    assert SignedText(n) == HEADER + (n.version + "\n" + n.artifactUrl) + "\n" + sha + "\n";
  }

  // ----- the checks -----

  datatype Refusal =
    | ManifestUnavailable | ManifestTooLarge | ManifestInvalid | SignatureInvalid
    | CurrentVersionInvalid | TargetVersionInvalid | Downgrade
    | ArtifactUnavailable | ChecksumMismatch
    | NotInstalled(error: UpdateError)

  datatype Applied = AlreadyCurrent | Updated(version: string)

  const MAX_SIGNED_MANIFEST_BYTES := 64 * 1024

  /** The library code and the network, as the update sees them. */
  datatype World<!V> = World(
    decode: seq<Byte> -> Option<Manifest>,
    verifies: (string, seq<Byte>, string) -> bool,
    parse: string -> Option<V>,
    less: (V, V) -> bool,
    fetch: string -> Option<seq<Byte>>,
    digest: seq<Byte> -> string)

  datatype Options = Options(
    manifestUrl: string, publicKey: string, currentVersion: string,
    parent: Option<string>, fileName: Option<string>, allowDowngrade: bool)

  function UpdateIsRequired<V(==)>(w: World<V>, current: string, target: string,
      allowDowngrade: bool): (r: Result<bool, Refusal>)
  {
    if w.parse(current).None? then Err(CurrentVersionInvalid)
    else if w.parse(target).None? then Err(TargetVersionInvalid)
    else if w.parse(target).value == w.parse(current).value then Ok(false)
    else if w.less(w.parse(target).value, w.parse(current).value) && !allowDowngrade then Err(Downgrade)
    else Ok(true)
  }

  /** The order of versions: one is lower than the other exactly if they differ and the other is not. */
  ghost predicate StrictOrder<V(!new)>(less: (V, V) -> bool) {
    && (forall a, b :: less(a, b) ==> !less(b, a) && a != b)
    && (forall a, b :: a != b ==> less(a, b) || less(b, a))
    && (forall a, b, c :: less(a, b) && less(b, c) ==> less(a, c))
  }

  /** Which updates are made: those to a later version and, with permission to go back, all that change it. */
  lemma {:induction false} UpdateIsRequiredIff<V(!new)>(w: World<V>, current: string, target: string,
      allowDowngrade: bool)
    requires StrictOrder(w.less)
    ensures var c, t, r := w.parse(current), w.parse(target), UpdateIsRequired(w, current, target, allowDowngrade);
            && (r == Err(CurrentVersionInvalid) <==> c.None?)
            && (r == Err(TargetVersionInvalid) <==> c.Some? && t.None?)
            && (r == Ok(false) <==> c.Some? && c == t)
            && (r == Ok(true) <==>
                  c.Some? && t.Some? && if allowDowngrade then c != t else w.less(c.value, t.value))
            && (r == Err(Downgrade) <==> c.Some? && t.Some? && !allowDowngrade && w.less(t.value, c.value))
  {
    var c, t := w.parse(current), w.parse(target);
    assert c.Some? && t.Some? && c != t ==> w.less(c.value, t.value) || w.less(t.value, c.value);
  }

  /** A checksum matches a digest exactly if they agree up to the case of the letters. */
  lemma {:induction false} ChecksumIgnoresCase(checksum: string, digest: string)
    requires DigestText(digest)
    ensures Lower(checksum) == digest <==>
              && |checksum| == |digest|
              && forall i | 0 <= i < |digest| ::
                   || checksum[i] == digest[i]
                   || ('A' <= checksum[i] <= 'F' && checksum[i] as int + 32 == digest[i] as int)
  {
    if Lower(checksum) == digest {
      forall i | 0 <= i < |digest|
        ensures checksum[i] == digest[i] || ('A' <= checksum[i] <= 'F' && checksum[i] as int + 32 == digest[i] as int)
      {
        assert Lower(checksum)[i] == LowerChar(checksum[i]) && HexDigit(digest[i]);
      }
    }
  }

  /** Updates that each follow the version before without permission to go back never come back to a version. */
  lemma {:induction false} UpdatesOnlyMoveForward<V(!new)>(w: World<V>, versions: seq<string>, i: nat, j: nat)
    requires StrictOrder(w.less) && i < j < |versions|
    requires forall k | 0 <= k < |versions| - 1 :: UpdateIsRequired(w, versions[k], versions[k + 1], false) == Ok(true)
    ensures w.parse(versions[i]).Some? && w.parse(versions[j]).Some?
    ensures w.less(w.parse(versions[i]).value, w.parse(versions[j]).value)
    decreases j - i
  {
    assert UpdateIsRequired(w, versions[j - 1], versions[j - 1 + 1], false) == Ok(true);
    if i < j - 1 {
      UpdatesOnlyMoveForward(w, versions, i, j - 1);
    }
  }

  /** The manifest was fetched, is small enough, decodes, and carries a valid signature. */
  ghost predicate Authentic<V(!new)>(w: World<V>, o: Options, m: Manifest) {
    exists bytes :: w.fetch(o.manifestUrl) == Some(bytes) && |bytes| <= 65536
                    && w.decode(bytes) == Some(m) && w.verifies(o.publicKey, ManifestSignedBytes(m), m.signature)
  }

  /** Everything that must hold before the installed binary may be touched. */
  ghost predicate Authorized<V(!new)>(w: World<V>, o: Options, m: Manifest, artifact: seq<Byte>) {
    && Authentic(w, o, m)
    && UpdateIsRequired(w, o.currentVersion, m.version, o.allowDowngrade) == Ok(true)
    && w.fetch(m.artifactUrl) == Some(artifact)
    && w.digest(artifact) == Lower(m.sha256)
  }

  /** What must be the case for a refusal before anything is touched. */
  ghost predicate Grounds<V(!new)>(w: World<V>, o: Options, refusal: Refusal) {
    var bytes := w.fetch(o.manifestUrl);
    match refusal
    case ManifestUnavailable => bytes.None?
    case ManifestTooLarge => bytes.Some? && |bytes.value| > 65536
    case ManifestInvalid => bytes.Some? && |bytes.value| <= 65536 && w.decode(bytes.value).None?
    case SignatureInvalid =>
      && bytes.Some? && |bytes.value| <= 65536
      && exists m :: w.decode(bytes.value) == Some(m) && !w.verifies(o.publicKey, ManifestSignedBytes(m), m.signature)
    case ArtifactUnavailable =>
      exists m :: Authentic(w, o, m) && Wanted(w, o, m) && w.fetch(m.artifactUrl).None?
    case ChecksumMismatch =>
      exists m, a :: Authentic(w, o, m) && Wanted(w, o, m) && w.fetch(m.artifactUrl) == Some(a)
                     && w.digest(a) != Lower(m.sha256)
    case NotInstalled(_) => false
    case e => exists m :: Authentic(w, o, m)
                          && UpdateIsRequired(w, o.currentVersion, m.version, o.allowDowngrade) == Err(e)
  }

  predicate Wanted<V(==)>(w: World<V>, o: Options, m: Manifest) {
    UpdateIsRequired(w, o.currentVersion, m.version, o.allowDowngrade) == Ok(true)
  }

  /** What the checks decide before anything is touched. */
  datatype Decision = Refused(refusal: Refusal) | Current | Install(manifest: Manifest, artifact: seq<Byte>)

  /** Exactly the authorized update is installed, and only an authentic manifest makes the binary current. */
  method CheckUpdate<V(==, !new)>(w: World<V>, o: Options) returns (d: Decision)
    ensures forall m, a :: Authorized(w, o, m, a) <==> d == Install(m, a)
    ensures d.Current? <==>
              exists m :: Authentic(w, o, m)
                          && UpdateIsRequired(w, o.currentVersion, m.version, o.allowDowngrade) == Ok(false)
    ensures forall m | Authentic(w, o, m) && UpdateIsRequired(w, o.currentVersion, m.version, o.allowDowngrade).Err? ::
              d == Refused(UpdateIsRequired(w, o.currentVersion, m.version, o.allowDowngrade).error)
    ensures d.Refused? ==> Grounds(w, o, d.refusal)
    ensures d.Refused? && d.refusal in {ManifestUnavailable, ManifestTooLarge, ManifestInvalid, SignatureInvalid}
       <==> forall m :: !Authentic(w, o, m)
  {
    var response := w.fetch(o.manifestUrl);
    if response.None? { return Refused(ManifestUnavailable); }
    if |response.value| > MAX_SIGNED_MANIFEST_BYTES { return Refused(ManifestTooLarge); }
    var decoded := w.decode(response.value);
    if decoded.None? { return Refused(ManifestInvalid); }
    var m := decoded.value;
    if !w.verifies(o.publicKey, ManifestSignedBytes(m), m.signature) { return Refused(SignatureInvalid); }
    assert Authentic(w, o, m);
    var required := UpdateIsRequired(w, o.currentVersion, m.version, o.allowDowngrade);
    if required.Err? { return Refused(required.error); }
    if !required.value { return Current; }
    var body := w.fetch(m.artifactUrl);
    assert Wanted(w, o, m);
    if body.None? { return Refused(ArtifactUnavailable); }
    if w.digest(body.value) != Lower(m.sha256) { return Refused(ChecksumMismatch); }
    assert Authorized(w, o, m, body.value);
    d := Install(m, body.value);
  }

  /** The target exists and was replaced by the artifact, with its permissions; nothing else is left or changed. */
  ghost predicate Replaced(o: Options, artifact: seq<Byte>, start: Snapshot, end: Snapshot) {
    && o.parent.Some? && o.fileName.Some?
    && var t := Path(o.parent.value, o.fileName.value);
    && t in start && start[t].File?
    && end == (start - {TemporaryOf(t), BackupOf(t)})[t := File(artifact, start[t].mode)]
  }

  predicate Synced(o: Options, dirty: set<Path>) {
    o.parent.Some? && o.fileName.Some? ==> Path(o.parent.value, o.fileName.value) !in dirty
  }

  /** A target that was a file is still there, or at the backup path. */
  ghost predicate Preserved(o: Options, start: Snapshot, end: Snapshot) {
    o.parent.Some? && o.fileName.Some? ==>
      var t := Path(o.parent.value, o.fileName.value);
      t in start && start[t].File? ==> Intact(end, t, start[t])
  }

  /** At every point of a run over a target that is a file the original is there, or at the backup path. */
  ghost predicate SafeThroughout(o: Options, artifact: seq<Byte>, start: Snapshot, trace: seq<Snapshot>, from: nat,
      to: nat) {
    o.parent.Some? && o.fileName.Some? ==>
      var t := Path(o.parent.value, o.fileName.value);
      t in start && start[t].File? ==> SafeBetween(trace, from, to, start, t, File(artifact, start[t].mode))
  }

  /** The old binary is in its place, unless something other than a file stands where the working files go. */
  ghost predicate InPlace(o: Options, start: Snapshot, s: Snapshot) {
    o.parent.Some? && o.fileName.Some? ==>
      var t := Path(o.parent.value, o.fileName.value);
      t in start && Unobstructed(start, t) ==> t in s && s[t] == start[t]
  }

  /** An error after which one fault may have kept the new or no binary in place. */
  predicate AfterInstall(e: UpdateError, faults: int) {
    e == CheckpointNotRemoved || (e == ValidationFailed && faults > 0)
  }

  method InstallUpdate(disk: Disk, o: Options, artifact: seq<Byte>, umaskMode: nat, runs: bool)
    returns (error: Option<UpdateError>)
    modifies disk
    ensures error.None? ==> Replaced(o, artifact, old(disk.nodes), disk.nodes) && Synced(o, disk.dirty)
    ensures error.Some? ==> Preserved(o, old(disk.nodes), disk.nodes)
    ensures var faults := disk.faults - old(disk.faults);
            error.Some? && faults <= 1 && !AfterInstall(error.value, faults) ==> InPlace(o, old(disk.nodes), disk.nodes)
    ensures old(disk.trace) <= disk.trace && (error.None? ==> |old(disk.trace)| < |disk.trace|)
    ensures SafeThroughout(o, artifact, old(disk.nodes), disk.trace, |old(disk.trace)|,
                           |disk.trace| - (if error.None? then 1 else 0))
    ensures disk.reliable && runs && o.parent.Some? && o.fileName.Some? ==>
              var t, start := Path(o.parent.value, o.fileName.value), old(disk.nodes);
              t in start && start[t].File? && Unobstructed(start, t) ==> error.None?
  {
    var outcome := AtomicReplaceAndValidate(disk, o.parent, o.fileName, artifact, umaskMode, runs);
    if outcome.result.Err? && outcome.result.error in {NoParent, InvalidName, NotReadable, NotAFile} {
      return Some(outcome.result.error);
    }
    ghost var t := Path(o.parent.value, o.fileName.value);
    ghost var installed := File(artifact, old(disk.nodes)[t].mode);
    if outcome.result.Err? {
      FailureKeepsOriginal(outcome, disk.nodes, old(disk.nodes), t, installed);
      PathsDiffer(t);
      return Some(outcome.result.error);
    }
    SuccessIsExact(outcome, disk.nodes, old(disk.nodes), t, installed);
    error := None;
  }

  method ApplySignedUpdate<V(==, !new)>(disk: Disk, w: World<V>, o: Options, umaskMode: nat, runs: bool)
    returns (r: Result<Applied, Refusal>)
    modifies disk
    ensures (exists m, a :: Authorized(w, o, m, a)) || (disk.nodes == old(disk.nodes) && disk.trace == old(disk.trace))
    ensures forall m, a | Authorized(w, o, m, a) ::
              match r
              case Ok(applied) =>
                applied == Updated(m.version) && Replaced(o, a, old(disk.nodes), disk.nodes) && Synced(o, disk.dirty)
              case Err(e) => e.NotInstalled?
    ensures old(disk.trace) <= disk.trace
    ensures forall m, a | Authorized(w, o, m, a) ::
              && (r.Ok? ==> |old(disk.trace)| < |disk.trace|)
              && SafeThroughout(o, a, old(disk.nodes), disk.trace, |old(disk.trace)|,
                                |disk.trace| - (if r.Ok? then 1 else 0))
    ensures r.Err? ==> Preserved(o, old(disk.nodes), disk.nodes)
    ensures var faults := disk.faults - old(disk.faults);
            r.Err? && faults <= 1 && !(r.error.NotInstalled? && AfterInstall(r.error.error, faults)) ==>
              InPlace(o, old(disk.nodes), disk.nodes)
    ensures r.Err? && !r.error.NotInstalled? ==> Grounds(w, o, r.error)
    ensures r == Ok(AlreadyCurrent) <==>
              exists m :: Authentic(w, o, m)
                          && UpdateIsRequired(w, o.currentVersion, m.version, o.allowDowngrade) == Ok(false)
    ensures r.Ok? && r.value.Updated? ==> exists m, a :: Authorized(w, o, m, a)
    ensures disk.reliable && runs && o.parent.Some? && o.fileName.Some? ==>
              var t, start := Path(o.parent.value, o.fileName.value), old(disk.nodes);
              t in start && start[t].File? && Unobstructed(start, t) ==>
                forall m, a | Authorized(w, o, m, a) :: r == Ok(Updated(m.version))
  {
    var decision := CheckUpdate(w, o);
    match decision {
      case Refused(refusal) =>
        r := Err(refusal);
      case Current =>
        r := Ok(AlreadyCurrent);
      case Install(m, artifact) =>
        assert Authorized(w, o, m, artifact);
        var error := InstallUpdate(disk, o, artifact, umaskMode, runs);
        r := if error.Some? then Err(NotInstalled(error.value)) else Ok(Updated(m.version));
    }
  }

  /** One signature, ever, authorizes one version, one address and one digest. */
  lemma {:induction false} OneSignatureOneUpdate<V(!new)>(
      w: World<V>, o: Options, m: Manifest, a: seq<Byte>, w': World<V>, o': Options, n: Manifest, b: seq<Byte>)
    requires forall v | w.parse(v).Some? || w'.parse(v).Some? :: VersionText(v)
    requires forall x :: DigestText(w.digest(x)) && DigestText(w'.digest(x))
    requires Authorized(w, o, m, a) && Authorized(w', o', n, b)
    requires ManifestSignedBytes(m) == ManifestSignedBytes(n)
    ensures m.version == n.version && m.artifactUrl == n.artifactUrl && w.digest(a) == w'.digest(b)
  {
    SignatureCoversManifest(m, n);
  }
}
