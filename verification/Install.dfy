/** The install-release chain: find the remote, work out where the firmware is, download it, check its
    digest, install it.  Each callback is one step; every reply of the outside world is a step label. */
module Install {
  import opened Wrappers
  import Cooldown
  import opened Download
  import Checksum

  datatype RemoteKind = DownloadKind | LocalKind | DirectoryKind

  datatype Remote = Remote(kind: RemoteKind, filenameCache: Option<string>, allowP2p: bool)

  datatype Release = Release(remoteId: Option<string>, locations: seq<string>, checksums: seq<string>, filename: string)

  /** Code outside the client that the chain calls. */
  datatype Env = Env(
    curl: Curl,
    basename: string -> string,
    dirname: string -> string,
    buildFilename: (string, string) -> string,
    firmwareUri: string -> Result<string, Error>,
    digest: (Checksum.Kind, Blob) -> string)

  // ---------------------------------------------------------------- where the firmware is

  /** The path of firmware that is already on this machine. */
  function LocalFile(env: Env, remote: Remote, uri: string): Option<string> {
    if remote.kind.LocalKind? && !IsHttp(env.curl, uri) && remote.filenameCache.Some? then
      Some(env.buildFilename(env.dirname(remote.filenameCache.value), uri))
    else if remote.kind.DirectoryKind? && HasPrefix(uri, "file://") then Some(uri[7..])
    else None
  }

  const Passim := "https://localhost:27500/"

  function PassimUrl(env: Env, release: Release, checksum: string): (url: string)
    ensures Passim <= url
  {
    Passim + (env.basename(release.filename) + "?sha256=" + checksum)
  }

  /** The Passim URI, for remotes that allow peer-to-peer firmware. */
  function PassimUris(env: Env, remote: Remote, release: Release): seq<string> {
    var sha256 := Checksum.FirstOfKind(release.checksums, Checksum.SHA256);
    if remote.allowP2p && sha256.Some? then
      [PassimUrl(env, release, sha256.value)]
    else []
  }

  ghost predicate HasSha256(release: Release) {
    exists j :: 0 <= j < |release.checksums| && Checksum.GuessKind(Some(release.checksums[j])) == Checksum.SHA256
  }

  /** What one location contributes: itself, the remote's URI for it, or nothing. */
  function UriOf(env: Env, location: string): Result<seq<string>, Error> {
    if IsP2p(env.curl, location) then Ok([location])
    else if IsHttp(env.curl, location) then
      match env.firmwareUri(location)
      case Ok(uri) => Ok([uri])
      case Err(e) => Err(e)
    else Ok([])
  }

  /** Contributions in order, or the first error. */
  function UrisOf(env: Env, locations: seq<string>): Result<seq<string>, Error> {
    if locations == [] then Ok([])
    else
      var before := UrisOf(env, locations[..|locations| - 1]);
      var last := UriOf(env, locations[|locations| - 1]);
      if before.Err? then before else if last.Err? then last else Ok(before.value + last.value)
  }

  /** The Passim part of fwupd_client_install_release_remote_cb(). */
  method BuildPassim(env: Env, remote: Remote, release: Release) returns (uris: seq<string>)
    ensures uris == PassimUris(env, remote, release)
  {
    uris := [];
    if remote.allowP2p {
      var sha256 := Checksum.GetByKind(release.checksums, Checksum.SHA256);
      if sha256.Some? {
        uris := uris + [PassimUrl(env, release, sha256.value)];
      }
    }
  }

  /** The loop over the locations. */
  method AddLocations(env: Env, passim: seq<string>, locations: seq<string>) returns (r: Result<seq<string>, Error>)
    ensures r == var uris := UrisOf(env, locations);
                 if uris.Err? then uris else Ok(passim + uris.value)
  {
    var uris := passim;
    for i := 0 to |locations|
      invariant UrisOf(env, locations[..i]).Ok? && uris == passim + UrisOf(env, locations[..i]).value
    {
      assert locations[..i + 1][..i] == locations[..i];
      var uri := locations[i];
      if IsP2p(env.curl, uri) {
        uris := uris + [uri];
      } else if IsHttp(env.curl, uri) {
        match env.firmwareUri(uri) {
          case Err(e) =>
            UrisOfError(env, locations, i + 1);
            return Err(e);
          case Ok(built) => uris := uris + [built];
        }
      }
      assert UriOf(env, uri).Ok?;
    }
    assert locations[..|locations|] == locations;
    return Ok(uris);
  }

  /** The part of fwupd_client_install_release_remote_cb() that builds the list of URIs. */
  method BuildUris(env: Env, remote: Remote, release: Release) returns (r: Result<seq<string>, Error>)
    ensures r == var uris := UrisOf(env, release.locations);
                 if uris.Err? then uris else Ok(PassimUris(env, remote, release) + uris.value)
  {
    var passim := BuildPassim(env, remote, release);
    r := AddLocations(env, passim, release.locations);
  }

  lemma {:induction false} UrisOfError(env: Env, locations: seq<string>, i: nat)
    requires i <= |locations| && UrisOf(env, locations[..i]).Err?
    ensures UrisOf(env, locations) == UrisOf(env, locations[..i])
    decreases |locations| - i
  {
    if i == |locations| {
      assert locations[..i] == locations;
    } else {
      assert locations[..i + 1][..i] == locations[..i];
      UrisOfError(env, locations, i + 1);
    }
  }

  // ---------------------------------------------------------------- the chain

  datatype Pc =
    | AwaitRemote
    | AwaitDownload(uris: seq<string>)
    | AwaitInstallBytes(blob: Blob)
    | AwaitInstallFile(filename: string)
    | Resolved

  /** What the daemon was asked to install. */
  datatype Installed = Bytes(blob: Blob, from: string) | File(filename: string)

  datatype State = State(pc: Pc, results: seq<Result<(), Error>>, installs: seq<Installed>)

  datatype Step =
    | RemoteReply(remote: Result<Remote, Error>)
    | DownloadReply(net: Network, cooldown: seq<Cooldown.Entry>, tried: nat, completion: Completion)
    | InstallReply(result: Result<(), Error>)

  function Resolve(s: State, r: Result<(), Error>): State {
    s.(pc := Resolved, results := s.results + [r])
  }

  /** fwupd_client_install_release_async() */
  function Start(release: Release): State {
    State(if release.remoteId.None? then AwaitDownload(release.locations) else AwaitRemote, [], [])
  }

  /** A download task completes with an error, or as the fallback downloader decides. */
  ghost predicate CanComplete(env: Env, onlyP2p: bool, uris: seq<string>, step: Step)
    requires step.DownloadReply?
  {
    var urls := Filtered(env.curl, onlyP2p, uris);
    step.completion.Failed? || (urls != [] && Decided(step.net, env.curl, step.cooldown, urls, step.tried, step.completion))
  }

  ghost predicate Enabled(env: Env, onlyP2p: bool, s: State, step: Step) {
    match s.pc
    case AwaitRemote => step.RemoteReply?
    case AwaitDownload(uris) => step.DownloadReply? && CanComplete(env, onlyP2p, uris, step)
    case AwaitInstallBytes(_) => step.InstallReply?
    case AwaitInstallFile(_) => step.InstallReply?
    case Resolved => false
  }

  ghost function Apply(env: Env, onlyP2p: bool, release: Release, s: State, step: Step): State
    requires Enabled(env, onlyP2p, s, step)
  {
    match step
    case RemoteReply(remote) => if remote.Err? then Resolve(s, Err(remote.error)) else OnRemote(env, release, s, remote.value)
    case DownloadReply(_, _, tried, completion) =>
      if completion.Failed? then Resolve(s, Err(completion.error))
      else OnBlob(env, release, s, completion.blob.value, Filtered(env.curl, onlyP2p, s.pc.uris)[tried - 1])
    case InstallReply(result) => Resolve(s, result)
  }

  /** fwupd_client_install_release_remote_cb() */
  ghost function OnRemote(env: Env, release: Release, s: State, remote: Remote): State {
    if release.locations == [] then Resolve(s, Err(InvalidFile))
    else
      var local := LocalFile(env, remote, release.locations[0]);
      var uris := UrisOf(env, release.locations);
      if local.Some? then s.(pc := AwaitInstallFile(local.value), installs := s.installs + [File(local.value)])
      else if uris.Err? then Resolve(s, Err(uris.error))
      else
        var all := PassimUris(env, remote, release) + uris.value;
        if all == [] then Resolve(s, Err(InvalidFile)) else s.(pc := AwaitDownload(all))
  }

  /** fwupd_client_install_release_download_cb() with a blob. */
  ghost function OnBlob(env: Env, release: Release, s: State, blob: Blob, from: string): State {
    var expected := Checksum.Best(release.checksums);
    var actual := env.digest(Checksum.GuessKind(expected), blob);
    if expected != Some(actual) then Resolve(s, Err(InvalidFile))
    else s.(pc := AwaitInstallBytes(blob), installs := s.installs + [Bytes(blob, from)])
  }

  ghost function Run(env: Env, onlyP2p: bool, release: Release, steps: seq<Step>): Option<State> {
    if steps == [] then Some(Start(release))
    else
      var before := Run(env, onlyP2p, release, steps[..|steps| - 1]);
      var step := steps[|steps| - 1];
      if before.Some? && Enabled(env, onlyP2p, before.value, step)
      then Some(Apply(env, onlyP2p, release, before.value, step)) else None
  }

  // ---------------------------------------------------------------- what every run keeps

  /** The blob has the digest that the best checksum of the release demands. */
  ghost predicate Verified(env: Env, release: Release, blob: Blob) {
    exists j: nat ::
      && Checksum.IsBestAt(release.checksums, j)
      && env.digest(Checksum.GuessKind(Some(release.checksums[j])), blob) == release.checksums[j]
  }

  ghost predicate InstallOk(env: Env, onlyP2p: bool, release: Release, i: Installed) {
    i.Bytes? ==> Verified(env, release, i.blob) && Allowed(env.curl, onlyP2p, i.from)
  }

  ghost function StepsLeft(pc: Pc): nat {
    match pc
    case AwaitRemote => 3
    case AwaitDownload(_) => 2
    case AwaitInstallBytes(_) => 1
    case AwaitInstallFile(_) => 1
    case Resolved => 0
  }

  ghost predicate Inv(env: Env, onlyP2p: bool, release: Release, s: State) {
    && |s.results| == (if s.pc.Resolved? then 1 else 0)
    && |s.installs| <= (if StepsLeft(s.pc) >= 2 then 0 else 1)
    && (s.pc.AwaitInstallBytes? || s.pc.AwaitInstallFile? ==> |s.installs| == 1)
    && (forall i | i in s.installs :: InstallOk(env, onlyP2p, release, i))
    && (s.results != [] && s.results[0].Ok? ==> |s.installs| == 1)
  }

  lemma StepInv(env: Env, onlyP2p: bool, release: Release, s: State, step: Step)
    requires Inv(env, onlyP2p, release, s) && Enabled(env, onlyP2p, s, step)
    ensures Inv(env, onlyP2p, release, Apply(env, onlyP2p, release, s, step))
    ensures StepsLeft(Apply(env, onlyP2p, release, s, step).pc) < StepsLeft(s.pc)
  {
    if step.DownloadReply? && step.completion.Returned? {
      var urls := Filtered(env.curl, onlyP2p, s.pc.uris);
      FilteredMember(env.curl, onlyP2p, s.pc.uris);
      assert urls[step.tried - 1] in urls;
      BlobInv(env, onlyP2p, release, s, step.completion.blob.value, urls[step.tried - 1]);
    }
  }

  lemma BlobInv(env: Env, onlyP2p: bool, release: Release, s: State, blob: Blob, from: string)
    requires Inv(env, onlyP2p, release, s) && s.pc.AwaitDownload? && Allowed(env.curl, onlyP2p, from)
    ensures Inv(env, onlyP2p, release, OnBlob(env, release, s, blob, from))
  {
    Checksum.BestMeaning(release.checksums);
    if OnBlob(env, release, s, blob, from).pc.AwaitInstallBytes? {
      var j: nat :| Checksum.IsBestAt(release.checksums, j) && release.checksums[j] == Checksum.Best(release.checksums).value;
      assert Verified(env, release, blob);
    }
  }

  lemma {:induction false} RunInv(env: Env, onlyP2p: bool, release: Release, steps: seq<Step>, s: State)
    requires Run(env, onlyP2p, release, steps) == Some(s)
    ensures Inv(env, onlyP2p, release, s) && |steps| + StepsLeft(s.pc) <= 3
    decreases |steps|
  {
    if steps != [] {
      var n := |steps| - 1;
      var before := Run(env, onlyP2p, release, steps[..n]).value;
      RunInv(env, onlyP2p, release, steps[..n], before);
      StepInv(env, onlyP2p, release, before, steps[n]);
    }
  }

  /** A release with a SHA-256 checksum from a remote that allows it is asked of the local Passim cache
      before anything else, and no other release ever is: the URLs to be tried are the one of its first
      such checksum, unless only peer-to-peer is allowed and curl sees no local host in it, and then the
      allowed locations. */
  lemma PassimTriedFirst(env: Env, onlyP2p: bool, remote: Remote, release: Release, s: State) returns (j: nat)
    requires OnRemote(env, release, s, remote).pc.AwaitDownload?
    ensures var tried := Filtered(env.curl, onlyP2p, OnRemote(env, release, s, remote).pc.uris);
            var located := Filtered(env.curl, onlyP2p, UrisOf(env, release.locations).value);
            if remote.allowP2p && HasSha256(release) then
              && Checksum.IsFirstOfKind(release.checksums, Checksum.SHA256, j)
              && var url := "https://localhost:27500/" + (env.basename(release.filename) + "?sha256=" + release.checksums[j]);
                 tried == (if !onlyP2p || IsLocalhost(env.curl, url) then [url] else []) + located
            else tried == located
  {
    var passim, located := PassimUris(env, remote, release), UrisOf(env, release.locations).value;
    j := Checksum.FirstOfKindMeaning(release.checksums, Checksum.SHA256);
    FilteredConcat(env.curl, onlyP2p, passim, located);
    if passim == [] {
      assert passim + located == located;
    } else {
      FilteredOne(env.curl, onlyP2p, passim[0]);
      NotIpfs(passim[0]);
      assert passim == [passim[0]];
    }
  }

  lemma NotIpfs(url: string)
    requires Passim <= url
    ensures !IsIpfs(url)
  {
    assert url[0] == 'h';
  }

  /** In every run the download path only installs a blob whose digest, of the kind guessed from the
      release's best checksum, equals that checksum, and that came from an allowed URL. */
  lemma OnlyVerifiedBlobs(env: Env, onlyP2p: bool, release: Release, steps: seq<Step>, s: State, i: Installed)
    requires Run(env, onlyP2p, release, steps) == Some(s) && i in s.installs && i.Bytes?
    ensures Verified(env, release, i.blob) && Allowed(env.curl, onlyP2p, i.from)
  {
    RunInv(env, onlyP2p, release, steps, s);
  }

  /** No blob is ever installed for a release without checksums, or with none but MD5-length ones. */
  lemma NeverWithoutChecksum(env: Env, onlyP2p: bool, release: Release, steps: seq<Step>, s: State)
    requires Run(env, onlyP2p, release, steps) == Some(s)
    requires forall i :: 0 <= i < |release.checksums| ==> Checksum.GuessKind(Some(release.checksums[i])) == Checksum.MD5
    ensures forall i | i in s.installs :: i.File?
  {
    RunInv(env, onlyP2p, release, steps, s);
  }

  /** A file is only ever installed unchecked when the remote of the release is local or a directory on
      this machine, and then it is the file that the first location of the release names. */
  lemma {:induction false} FilesAreLocal(env: Env, onlyP2p: bool, release: Release, steps: seq<Step>, s: State, i: Installed)
    requires Run(env, onlyP2p, release, steps) == Some(s) && i in s.installs && i.File?
    ensures && steps != [] && steps[0].RemoteReply? && steps[0].remote.Ok? && release.locations != []
            && !steps[0].remote.value.kind.DownloadKind?
            && LocalFile(env, steps[0].remote.value, release.locations[0]) == Some(i.filename)
    decreases |steps|
  {
    if steps != [] {
      var n := |steps| - 1;
      var before := Run(env, onlyP2p, release, steps[..n]).value;
      RunInv(env, onlyP2p, release, steps[..n], before);
      if i in before.installs { FilesAreLocal(env, onlyP2p, release, steps[..n], before, i); }
    }
  }

  /** The GTask is resolved at most once, exactly when the chain ends; every run ends within three
      replies; and it never reports success without one install. */
  lemma ResolvedExactlyOnce(env: Env, onlyP2p: bool, release: Release, steps: seq<Step>, s: State)
    requires Run(env, onlyP2p, release, steps) == Some(s)
    ensures |s.results| == 1 <==> s.pc.Resolved?
    ensures |s.results| <= 1 && |steps| <= 3
    ensures |steps| == 3 ==> s.pc.Resolved?
    ensures s.results == [Ok(())] ==> |s.installs| == 1
    ensures s.pc.Resolved? <==> forall step :: !Enabled(env, onlyP2p, s, step)
  {
    RunInv(env, onlyP2p, release, steps, s);
    match s.pc
    case AwaitRemote => assert Enabled(env, onlyP2p, s, RemoteReply(Err(InvalidFile)));
    case AwaitDownload(_) =>
      var net := Network(i => None, i => 0, i => None, i => [], i => j => Err(InvalidFile), 0, i => Err(InvalidFile));
      assert Enabled(env, onlyP2p, s, DownloadReply(net, [], 0, Failed(InvalidFile)));
    case AwaitInstallBytes(_) => assert Enabled(env, onlyP2p, s, InstallReply(Ok(())));
    case AwaitInstallFile(_) => assert Enabled(env, onlyP2p, s, InstallReply(Ok(())));
    case Resolved =>
  }

  // ---------------------------------------------------------------- what each reply leads to

  /** The firmware at this location is the file `f`: next to the metadata of a local remote, or behind the
      scheme of a location in a directory remote. */
  ghost predicate IsLocalFile(env: Env, remote: Remote, location: string, f: string) {
    || (&& remote.kind.LocalKind? && !IsHttp(env.curl, location)
        && exists metadata :: remote.filenameCache == Some(metadata) && f == env.buildFilename(env.dirname(metadata), location))
    || (remote.kind.DirectoryKind? && location == "file://" + f)
  }

  lemma LocalFileIff(env: Env, remote: Remote, location: string, f: string)
    ensures LocalFile(env, remote, location) == Some(f) <==> IsLocalFile(env, remote, location, f)
  {
    if HasPrefix(location, "file://") { assert location == "file://" + location[7..]; }
    if location == "file://" + f { assert location[7..] == f; }
  }

  /** The location stands for this URI: for itself when it is peer-to-peer, and otherwise for what the
      remote makes of it. */
  ghost predicate StandsFor(env: Env, location: string, uri: string) {
    if IsIpfs(location) || IsLocalhost(env.curl, location) then uri == location
    else IsHttp(env.curl, location) && env.firmwareUri(location) == Ok(uri)
  }

  /** The remote has no URI for this location. */
  ghost predicate Fails(env: Env, location: string, e: Error) {
    !IsP2p(env.curl, location) && IsHttp(env.curl, location) && env.firmwareUri(location) == Err(e)
  }

  /** The locations come to an error exactly when the first that fails gives it, and otherwise to all the
      URIs they stand for. */
  lemma {:induction false} UrisMeaning(env: Env, locations: seq<string>)
    ensures UrisOf(env, locations).Ok? <==> forall l, e | l in locations :: !Fails(env, l, e)
    ensures UrisOf(env, locations).Ok? ==>
        forall u :: u in UrisOf(env, locations).value <==> exists l :: l in locations && StandsFor(env, l, u)
    ensures UrisOf(env, locations).Err? ==>
        exists i: nat :: i < |locations| && Fails(env, locations[i], UrisOf(env, locations).error)
                      && forall j, e | 0 <= j < i :: !Fails(env, locations[j], e)
    decreases |locations|
  {
    if locations != [] {
      var n := |locations| - 1;
      UrisMeaning(env, locations[..n]);
      UriMeaning(env, locations[n]);
    }
  }

  lemma UriMeaning(env: Env, location: string)
    ensures UriOf(env, location).Ok? <==> forall e :: !Fails(env, location, e)
    ensures UriOf(env, location).Ok? ==> forall u :: u in UriOf(env, location).value <==> StandsFor(env, location, u)
    ensures UriOf(env, location).Err? ==> Fails(env, location, UriOf(env, location).error)
  {
    if UriOf(env, location).Err? { assert Fails(env, location, UriOf(env, location).error); }
  }

  /** The URIs are in the order of their locations. */
  lemma {:induction false} UrisConcat(env: Env, a: seq<string>, b: seq<string>)
    requires UrisOf(env, a).Ok? && UrisOf(env, b).Ok?
    ensures UrisOf(env, a + b) == Ok(UrisOf(env, a).value + UrisOf(env, b).value)
    decreases |b|
  {
    if b == [] {
      assert a + b == a && UrisOf(env, a).value + [] == UrisOf(env, a).value;
    } else {
      var n := |b| - 1;
      assert (a + b)[..|a + b| - 1] == a + b[..n];
      UrisConcat(env, a, b[..n]);
      var (x, y, z) := (UrisOf(env, a).value, UrisOf(env, b[..n]).value, UriOf(env, b[n]).value);
      assert (x + y) + z == x + (y + z);
    }
  }

  ghost predicate HasLocalFile(env: Env, remote: Remote, release: Release) {
    release.locations != [] && exists f :: IsLocalFile(env, remote, release.locations[0], f)
  }

  /** Some URL can be tried: the one of the Passim cache, or one that a location stands for. */
  ghost predicate HasUri(env: Env, remote: Remote, release: Release) {
    || (remote.allowP2p && HasSha256(release))
    || exists l, u :: l in release.locations && StandsFor(env, l, u)
  }

  ghost predicate SomeFails(env: Env, release: Release) {
    exists l, e :: l in release.locations && Fails(env, l, e)
  }

  lemma PassimIff(env: Env, remote: Remote, release: Release)
    ensures PassimUris(env, remote, release) != [] <==> remote.allowP2p && HasSha256(release)
  {
    var j := Checksum.FirstOfKindMeaning(release.checksums, Checksum.SHA256);
  }

  lemma SomeUri(env: Env, remote: Remote, release: Release)
    requires UrisOf(env, release.locations).Ok?
    ensures PassimUris(env, remote, release) + UrisOf(env, release.locations).value != [] <==> HasUri(env, remote, release)
  {
    PassimIff(env, remote, release);
    UrisMeaning(env, release.locations);
    var passim, uris := PassimUris(env, remote, release), UrisOf(env, release.locations).value;
    if passim == [] { assert passim + uris == uris; } else { assert (passim + uris)[0] == passim[0]; }
    if uris != [] { assert uris[0] in uris; }
    if l, u :| l in release.locations && StandsFor(env, l, u) { assert u in uris; }
  }

  /** With the remote at hand: the firmware is installed from this machine if and only if the first location
      is a local file; otherwise it is downloaded if and only if no location fails and there is something to
      try; and otherwise the GTask ends with the first failure, or for want of a URI. */
  lemma RemoteOutcome(env: Env, release: Release, s: State, remote: Remote)
    ensures var s' := OnRemote(env, release, s, remote);
            if HasLocalFile(env, remote, release) then
              exists f :: && IsLocalFile(env, remote, release.locations[0], f)
                          && s' == State(AwaitInstallFile(f), s.results, s.installs + [File(f)])
            else if release.locations != [] && !SomeFails(env, release) && HasUri(env, remote, release) then
              s'.pc.AwaitDownload? && s'.results == s.results && s'.installs == s.installs
            else
              && s'.pc.Resolved? && s'.installs == s.installs
              && exists e :: && s'.results == s.results + [Err(e)]
                             && (if SomeFails(env, release) then FirstFailure(env, release.locations, e) else e == InvalidFile)
  {
    var s', locations := OnRemote(env, release, s, remote), release.locations;
    UrisMeaning(env, locations);
    if locations != [] {
      var local := LocalFile(env, remote, locations[0]);
      forall f ensures local == Some(f) <==> IsLocalFile(env, remote, locations[0], f) {
        LocalFileIff(env, remote, locations[0], f);
      }
      if local.Some? {
        assert IsLocalFile(env, remote, locations[0], local.value);
      } else if UrisOf(env, locations).Ok? {
        SomeUri(env, remote, release);
      }
    }
  }

  ghost predicate FirstFailure(env: Env, locations: seq<string>, e: Error) {
    exists i: nat :: i < |locations| && Fails(env, locations[i], e) && forall j, e' | 0 <= j < i :: !Fails(env, locations[j], e')
  }

  /** With a blob at hand: it is installed if and only if it has the digest that the best checksum of the
      release demands. */
  lemma BlobInstalledIff(env: Env, release: Release, s: State, blob: Blob, from: string)
    ensures OnBlob(env, release, s, blob, from)
         == if Verified(env, release, blob) then State(AwaitInstallBytes(blob), s.results, s.installs + [Bytes(blob, from)])
            else State(Resolved, s.results + [Err(InvalidFile)], s.installs)
  {
    Checksum.BestMeaning(release.checksums);
    if j: nat :| Checksum.IsBestAt(release.checksums, j) { Checksum.BestAt(release.checksums, j); }
    if Checksum.Best(release.checksums).Some? {
      var j: nat :| Checksum.IsBestAt(release.checksums, j) && release.checksums[j] == Checksum.Best(release.checksums).value;
      forall k: nat | Checksum.IsBestAt(release.checksums, k) ensures k == j { }
    }
  }

  // ---------------------------------------------------------------- what whole runs come to

  lemma {:induction false} RunPrefix(env: Env, onlyP2p: bool, release: Release, steps: seq<Step>, i: nat)
    requires Run(env, onlyP2p, release, steps).Some? && i <= |steps|
    ensures Run(env, onlyP2p, release, steps[..i]).Some?
    decreases |steps|
  {
    if i == |steps| {
      assert steps[..i] == steps;
    } else {
      RunPrefix(env, onlyP2p, release, steps[..|steps| - 1], i);
      assert steps[..|steps| - 1][..i] == steps[..i];
    }
  }

  /** The state before the i-th reply, and that it was enabled there. */
  lemma StateAt(env: Env, onlyP2p: bool, release: Release, steps: seq<Step>, i: nat) returns (s: State)
    requires Run(env, onlyP2p, release, steps).Some? && i < |steps|
    ensures Run(env, onlyP2p, release, steps[..i]) == Some(s) && Inv(env, onlyP2p, release, s)
    ensures Enabled(env, onlyP2p, s, steps[i])
    ensures Run(env, onlyP2p, release, steps[..i + 1]) == Some(Apply(env, onlyP2p, release, s, steps[i]))
  {
    RunPrefix(env, onlyP2p, release, steps, i);
    RunPrefix(env, onlyP2p, release, steps, i + 1);
    assert steps[..i + 1][..i] == steps[..i] && steps[..i + 1][i] == steps[i];
    s := Run(env, onlyP2p, release, steps[..i]).value;
    RunInv(env, onlyP2p, release, steps[..i], s);
  }

  /** Once the GTask is resolved there is no further reply. */
  lemma NothingAfter(env: Env, onlyP2p: bool, release: Release, steps: seq<Step>, s: State, i: nat)
    requires Run(env, onlyP2p, release, steps) == Some(s) && i <= |steps|
    requires Run(env, onlyP2p, release, steps[..i]).Some? && Run(env, onlyP2p, release, steps[..i]).value.pc.Resolved?
    ensures i == |steps| && Run(env, onlyP2p, release, steps[..i]) == Some(s)
  {
    if i < |steps| {
      var before := StateAt(env, onlyP2p, release, steps, i);
      assert false;
    }
    assert steps[..i] == steps;
  }

  /** The daemon was asked to install `what` with the i-th reply, and the run ends there or with its answer. */
  ghost predicate EndsWith(steps: seq<Step>, s: State, i: nat, what: Installed) {
    && s.installs == [what] && i < |steps| <= i + 2
    && (|steps| == i + 1 ==> s.results == [] && (s.pc.AwaitInstallBytes? || s.pc.AwaitInstallFile?))
    && (|steps| == i + 2 ==> s.pc.Resolved? && steps[i + 1].InstallReply? && s.results == [steps[i + 1].result])
  }

  lemma AfterInstall(env: Env, onlyP2p: bool, release: Release, steps: seq<Step>, s: State, i: nat, what: Installed)
    requires Run(env, onlyP2p, release, steps) == Some(s) && i < |steps|
    requires Run(env, onlyP2p, release, steps[..i + 1]).Some?
    requires var s1 := Run(env, onlyP2p, release, steps[..i + 1]).value;
             (s1.pc.AwaitInstallBytes? || s1.pc.AwaitInstallFile?) && s1.results == [] && s1.installs == [what]
    ensures EndsWith(steps, s, i, what)
  {
    if i + 1 == |steps| {
      assert steps[..i + 1] == steps;
    } else {
      var s1 := StateAt(env, onlyP2p, release, steps, i + 1);
      NothingAfter(env, onlyP2p, release, steps, s, i + 2);
    }
  }

  lemma BlobAt(env: Env, onlyP2p: bool, release: Release, steps: seq<Step>, i: nat) returns (before: State, from: string)
    requires Run(env, onlyP2p, release, steps).Some? && i < |steps|
    requires steps[i].DownloadReply? && steps[i].completion.Returned?
    ensures steps[i].completion.blob.Some? && Allowed(env.curl, onlyP2p, from)
    ensures before.results == [] && before.installs == []
    ensures Run(env, onlyP2p, release, steps[..i + 1]) == Some(OnBlob(env, release, before, steps[i].completion.blob.value, from))
  {
    before := StateAt(env, onlyP2p, release, steps, i);
    var urls := Filtered(env.curl, onlyP2p, before.pc.uris);
    from := urls[steps[i].tried - 1];
    FilteredMember(env.curl, onlyP2p, before.pc.uris);
    assert from in urls;
  }

  /** In every run: a blob that was downloaded is installed if and only if its digest is right, and then the
      GTask ends with the answer to that; otherwise it ends with InvalidFile and nothing is installed. */
  lemma BlobOutcome(env: Env, onlyP2p: bool, release: Release, steps: seq<Step>, s: State, i: nat)
    requires Run(env, onlyP2p, release, steps) == Some(s) && i < |steps|
    requires steps[i].DownloadReply? && steps[i].completion.Returned?
    ensures steps[i].completion.blob.Some?
    ensures var blob := steps[i].completion.blob.value;
            if Verified(env, release, blob) then exists from :: Allowed(env.curl, onlyP2p, from) && EndsWith(steps, s, i, Bytes(blob, from))
            else |steps| == i + 1 && s == State(Resolved, [Err(InvalidFile)], [])
  {
    var before, from := BlobAt(env, onlyP2p, release, steps, i);
    var blob := steps[i].completion.blob.value;
    BlobInstalledIff(env, release, before, blob, from);
    if Verified(env, release, blob) {
      AfterInstall(env, onlyP2p, release, steps, s, i, Bytes(blob, from));
    } else {
      NothingAfter(env, onlyP2p, release, steps, s, i + 1);
    }
  }

  /** In every run: when the first location of the release is a file on this machine that file is installed,
      and the GTask ends with the answer to that. */
  lemma FileOutcome(env: Env, onlyP2p: bool, release: Release, steps: seq<Step>, s: State, i: nat)
    requires Run(env, onlyP2p, release, steps) == Some(s) && i < |steps| && steps[i].RemoteReply? && steps[i].remote.Ok?
    requires HasLocalFile(env, steps[i].remote.value, release)
    ensures exists f :: IsLocalFile(env, steps[i].remote.value, release.locations[0], f) && EndsWith(steps, s, i, File(f))
  {
    var before := StateAt(env, onlyP2p, release, steps, i);
    RemoteOutcome(env, release, before, steps[i].remote.value);
    var f :| && IsLocalFile(env, steps[i].remote.value, release.locations[0], f)
             && Run(env, onlyP2p, release, steps[..i + 1]).value == State(AwaitInstallFile(f), before.results, before.installs + [File(f)]);
    AfterInstall(env, onlyP2p, release, steps, s, i, File(f));
  }

  /** In every run: the error of a remote that is not found or of a download is the one the GTask ends with,
      and nothing is installed. */
  lemma ErrorOutcome(env: Env, onlyP2p: bool, release: Release, steps: seq<Step>, s: State, i: nat, e: Error)
    requires Run(env, onlyP2p, release, steps) == Some(s) && i < |steps|
    requires || (steps[i].RemoteReply? && steps[i].remote == Err(e))
             || (steps[i].DownloadReply? && steps[i].completion == Failed(e))
    ensures |steps| == i + 1 && s == State(Resolved, [Err(e)], [])
  {
    var before := StateAt(env, onlyP2p, release, steps, i);
    NothingAfter(env, onlyP2p, release, steps, s, i + 1);
  }

  /** A release with a remote is looked up there first, and one without is downloaded from its locations. */
  lemma FirstReply(env: Env, onlyP2p: bool, release: Release, steps: seq<Step>)
    requires Run(env, onlyP2p, release, steps).Some? && steps != []
    ensures steps[0].RemoteReply? <==> release.remoteId.Some?
    ensures release.remoteId.None? ==> steps[0].DownloadReply? && CanComplete(env, onlyP2p, release.locations, steps[0])
  {
    var before := StateAt(env, onlyP2p, release, steps, 0);
  }

  /** With digests of the right size, the blob is compared with the digest whose size the best checksum has;
      a checksum of any other length is never met. */
  lemma VerifiedBySize(env: Env, release: Release, blob: Blob)
    requires forall kind, b :: |env.digest(kind, b)| == 2 * Checksum.DigestSize(kind)
    ensures Verified(env, release, blob) <==>
        exists j: nat, kind :: && Checksum.IsBestAt(release.checksums, j)
                               && |release.checksums[j]| == 2 * Checksum.DigestSize(kind)
                               && env.digest(kind, blob) == release.checksums[j]
  {
    if j: nat, kind :| && Checksum.IsBestAt(release.checksums, j)
                       && |release.checksums[j]| == 2 * Checksum.DigestSize(kind)
                       && env.digest(kind, blob) == release.checksums[j] {
      Checksum.GuessIsBySize(release.checksums[j]);
      assert Verified(env, release, blob);
    }
  }
}
