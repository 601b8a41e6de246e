/** Which release an update check picks. */
module Releases {
  import opened Wrappers
  import opened JsonValues
  import opened Versions
  import opened Installation

  const MANIFEST_NAME: string := "rcodex-update.json"
  const MAX_BINARY_BYTES: nat := 128 * 1024 * 1024
  const MAX_RELEASES: nat := 20
  const TARGETS: set<string> := {"aarch64-apple-darwin", "x86_64-apple-darwin"}

  datatype ReleaseError =
    | InvalidVersion
    | InvalidManifest
    | VersionsDiffer
    | TooManyReleases
    | Unavailable
    | TagMismatch
    | BinaryMissing

  datatype Manifest = Manifest(
    schemaVersion: nat,
    version: string,
    codexVersions: seq<string>,
    assets: seq<Asset>)

  datatype Release = Release(tag: string, draft: bool, prerelease: bool, assets: seq<string>)

  // ---------- One manifest ----------

  predicate IsLowerHex(c: char) {
    '0' <= c <= '9' || 'a' <= c <= 'f'
  }

  predicate IsDigest(s: string) {
    |s| == 64 && forall i | 0 <= i < |s| :: IsLowerHex(s[i])
  }

  ghost predicate GoodAsset(asset: Asset, version: string) {
    && asset.target in TARGETS
    && asset.name == "rcodex-" + version + "-" + asset.target
    && IsDigest(asset.sha256)
    && 0 < asset.size <= MAX_BINARY_BYTES
  }

  ghost predicate WellFormed(m: Manifest) {
    && Parse(m.version).Some?
    && m.schemaVersion == 1
    && 1 <= |m.codexVersions| <= 32
    && 1 <= |m.assets| <= 2
    && (forall i | 0 <= i < |m.codexVersions| :: Parse(m.codexVersions[i]).Some?)
    && (forall i | 0 <= i < |m.assets| :: GoodAsset(m.assets[i], m.version))
    && forall i, j | 0 <= i < j < |m.assets| :: m.assets[i].target != m.assets[j].target
  }

  method Validate(m: Manifest) returns (r: Result<(), ReleaseError>)
    ensures r.Ok? <==> WellFormed(m)
    ensures r.Err? ==> r.error in {InvalidVersion, InvalidManifest}
  {
    hide Parse, GoodAsset;
    if Parse(m.version).None? {
      return Err(InvalidVersion);
    }
    if m.schemaVersion != 1 || m.codexVersions == [] || |m.codexVersions| > 32 || m.assets == [] || |m.assets| > 2 {
      return Err(InvalidManifest);
    }
    for k := 0 to |m.codexVersions|
      invariant forall i | 0 <= i < k :: Parse(m.codexVersions[i]).Some?
    {
      if Parse(m.codexVersions[k]).None? {
        return Err(InvalidVersion);
      }
    }
    var assetsAreGood := CheckAssets(m);
    return if assetsAreGood then Ok(()) else Err(InvalidManifest);
  }

  method CheckAssets(m: Manifest) returns (ok: bool)
    ensures ok <==>
              && (forall i | 0 <= i < |m.assets| :: GoodAsset(m.assets[i], m.version))
              && forall i, j | 0 <= i < j < |m.assets| :: m.assets[i].target != m.assets[j].target
  {
    hide IsDigest;
    var targets: set<string> := {};
    for k := 0 to |m.assets|
      invariant forall i | 0 <= i < k :: GoodAsset(m.assets[i], m.version)
      invariant forall i | 0 <= i < k :: m.assets[i].target in targets
      invariant forall target | target in targets :: exists i :: 0 <= i < k && m.assets[i].target == target
      invariant forall i, j | 0 <= i < j < k :: m.assets[i].target != m.assets[j].target
    {
      var asset := m.assets[k];
      if asset.target !in TARGETS
         || asset.target in targets
         || asset.name != "rcodex-" + m.version + "-" + asset.target
         || !IsDigest(asset.sha256)
         || asset.size == 0
         || asset.size > MAX_BINARY_BYTES
      {
        return false;
      }
      targets := targets + {asset.target};
    }
    return true;
  }

  /** The limits and names of a manifest that is accepted. */
  lemma AcceptedManifest(m: Manifest, i: nat)
    requires WellFormed(m) && i < |m.assets|
    ensures m.schemaVersion == 1 && 1 <= |m.codexVersions| <= 32 && 1 <= |m.assets| <= 2
    ensures var asset := m.assets[i];
            && asset.target in {"aarch64-apple-darwin", "x86_64-apple-darwin"}
            && asset.name == "rcodex-" + m.version + "-" + asset.target
            && 1 <= asset.size <= 134_217_728
            && |asset.sha256| == 64
            && forall k | 0 <= k < 64 :: asset.sha256[k] in "0123456789abcdef"
  {
    hide Parse;
    var sha := m.assets[i].sha256;
    forall k | 0 <= k < 64 ensures sha[k] in "0123456789abcdef" {
      HexDigits(sha[k]);
    }
  }

  lemma HexDigits(c: char)
    ensures IsLowerHex(c) <==> c in "0123456789abcdef"
  {
    var digits := "0123456789abcdef";
    if '0' <= c <= '9' {
      assert digits[c as int - '0' as int] == c;
    } else if 'a' <= c <= 'f' {
      assert digits[10 + c as int - 'a' as int] == c;
    }
  }

  /** The asset that a manifest offers to this installation. */
  ghost predicate Offers(m: Manifest, current: Version, local: string, remote: string, target: string, asset: Asset) {
    && WellFormed(m)
    && Parse(m.version).value.Newer(current)
    && local == remote && local in m.codexVersions
    && asset in m.assets && asset.target == target
  }

  method Select(m: Manifest, current: string, local: string, remote: string, target: string)
    returns (r: Result<Option<Asset>, ReleaseError>)
    ensures r.Err? <==> !WellFormed(m) || Parse(current).None?
    ensures r.Ok? && r.value.Some? ==> Offers(m, Parse(current).value, local, remote, target, r.value.value)
    ensures r.Ok? && r.value.None? ==> !exists asset :: Offers(m, Parse(current).value, local, remote, target, asset)
  {
    var valid := Validate(m);
    if valid.Err? {
      return Err(valid.error);
    }
    var installed := Parse(current);
    if installed.None? {
      return Err(InvalidVersion);
    }
    if !Parse(m.version).value.Newer(installed.value) || local != remote || local !in m.codexVersions {
      return Ok(None);
    }
    for i := 0 to |m.assets|
      invariant forall j | 0 <= j < i :: m.assets[j].target != target
    {
      if m.assets[i].target == target {
        return Ok(Some(m.assets[i]));
      }
    }
    return Ok(None);
  }

  /** At most one asset can be offered. */
  lemma OfferIsUnique(m: Manifest, current: Version, local: string, remote: string, target: string, a: Asset, b: Asset)
    requires Offers(m, current, local, remote, target, a) && Offers(m, current, local, remote, target, b)
    ensures a == b
  {
    var i :| 0 <= i < |m.assets| && m.assets[i] == a;
    var j :| 0 <= j < |m.assets| && m.assets[j] == b;
    assert m.assets[i].target == m.assets[j].target;
  }

  // ---------- The list of releases ----------

  function TagVersion(tag: string): Option<Version> {
    if tag != "" && tag[0] == 'v' then Parse(tag[1..]) else None
  }

  predicate Retained(release: Release, current: Version) {
    && !release.draft && !release.prerelease
    && TagVersion(release.tag).Some?
    && TagVersion(release.tag).value.Newer(current)
  }

  /** Which releases are considered: stable ones tagged with a newer version. */
  lemma RetainedIff(release: Release, current: Version, version: string)
    requires release.tag == "v" + version
    ensures Retained(release, current) <==>
              !release.draft && !release.prerelease && Parse(version).Some? && Parse(version).value.Newer(current)
  {
    TagOf(version);
  }

  lemma OtherTagsAreIgnored(release: Release, current: Version)
    requires release.tag == "" || release.tag[0] != 'v'
    ensures !Retained(release, current)
  {
  }

  predicate Tagged(releases: seq<Release>) {
    forall i | 0 <= i < |releases| :: TagVersion(releases[i].tag).Some?
  }

  predicate NoNewer(a: Release, b: Release)
    requires TagVersion(a.tag).Some? && TagVersion(b.tag).Some?
  {
    !TagVersion(a.tag).value.Newer(TagVersion(b.tag).value)
  }

  ghost predicate NewestFirst(releases: seq<Release>)
    requires Tagged(releases)
  {
    forall i, j | 0 <= i < j < |releases| :: NoNewer(releases[j], releases[i])
  }

  /** Put a release in front of the first one that is not newer. */
  function Insert(release: Release, sorted: seq<Release>): (r: seq<Release>)
    requires TagVersion(release.tag).Some? && Tagged(sorted)
    ensures Tagged(r)
  {
    if sorted == [] then [release]
    else if NoNewer(sorted[0], release) then [release] + sorted
    else [sorted[0]] + Insert(release, sorted[1..])
  }

  /** The stable sort by descending version. */
  function SortNewestFirst(releases: seq<Release>): (r: seq<Release>)
    requires Tagged(releases)
    ensures Tagged(r)
  {
    if releases == [] then [] else Insert(releases[0], SortNewestFirst(releases[1..]))
  }

  lemma {:induction false} InsertKeepsAll(release: Release, sorted: seq<Release>)
    requires TagVersion(release.tag).Some? && Tagged(sorted)
    ensures multiset(Insert(release, sorted)) == multiset(sorted) + multiset{release}
  {
    hide TagVersion, NoNewer;
    if sorted != [] && !NoNewer(sorted[0], release) {
      InsertKeepsAll(release, sorted[1..]);
      assert sorted == [sorted[0]] + sorted[1..];
    }
  }

  lemma {:induction false} InsertSorts(release: Release, sorted: seq<Release>)
    requires TagVersion(release.tag).Some? && Tagged(sorted) && NewestFirst(sorted)
    ensures NewestFirst(Insert(release, sorted))
  {
    hide TagVersion;
    if sorted == [] {
    } else if NoNewer(sorted[0], release) {
      PrependNewest(release, sorted);
    } else {
      InsertSorts(release, sorted[1..]);
      InsertKeepsAll(release, sorted[1..]);
      var rest := Insert(release, sorted[1..]);
      forall x | x in rest ensures NoNewer(x, sorted[0]) {
        assert x in multiset(rest);
      }
      PrependNewest(sorted[0], rest);
    }
  }

  lemma PrependNewest(first: Release, rest: seq<Release>)
    requires TagVersion(first.tag).Some? && Tagged(rest) && NewestFirst(rest)
    requires rest == [] || NoNewer(rest[0], first) || forall x | x in rest :: NoNewer(x, first)
    ensures NewestFirst([first] + rest)
  {
    hide TagVersion;
    forall j | 0 <= j < |rest| ensures NoNewer(rest[j], first) {
      if j > 0 {
        assert NoNewer(rest[j], rest[0]);
      }
    }
  }

  lemma {:induction false} SortIsCorrect(releases: seq<Release>)
    requires Tagged(releases)
    ensures multiset(SortNewestFirst(releases)) == multiset(releases)
    ensures NewestFirst(SortNewestFirst(releases))
  {
    hide TagVersion, Insert, NoNewer;
    if releases != [] {
      SortIsCorrect(releases[1..]);
      InsertKeepsAll(releases[0], SortNewestFirst(releases[1..]));
      InsertSorts(releases[0], SortNewestFirst(releases[1..]));
      assert releases == [releases[0]] + releases[1..];
    }
  }

  // ---------- Finding an update ----------

  /** The repository answers with a signed and parsed manifest, or fails. */
  type Repository = string -> Result<Manifest, ReleaseError>

  ghost predicate HasManifest(release: Release) {
    MANIFEST_NAME in release.assets
  }

  /** The release is newer, carries a manifest, and its manifest offers something here. */
  ghost predicate Selectable(release: Release, fetch: Repository, current: Version, local: string, remote: string,
                             target: string, m: Manifest, asset: Asset)
  {
    && Retained(release, current) && HasManifest(release)
    && fetch(release.tag) == Ok(m)
    && release.tag == "v" + m.version
    && Offers(m, current, local, remote, target, asset)
  }

  ghost predicate NothingSelectable(release: Release, fetch: Repository, current: Version, local: string,
                                    remote: string, target: string)
  {
    !exists m, asset :: Selectable(release, fetch, current, local, remote, target, m, asset)
  }

  /** The release stops the search with an error. */
  ghost predicate Broken(release: Release, fetch: Repository, current: Version, local: string, remote: string,
                         target: string)
  {
    && Retained(release, current) && HasManifest(release)
    && (|| fetch(release.tag).Err?
        || release.tag != "v" + fetch(release.tag).value.version
        || !WellFormed(fetch(release.tag).value)
        || exists asset :: Offers(fetch(release.tag).value, current, local, remote, target, asset)
                           && asset.name !in release.assets)
  }

  method Retain(releases: seq<Release>, current: Version) returns (kept: seq<Release>)
    ensures forall release :: release in kept <==> release in releases && Retained(release, current)
  {
    kept := [];
    for k := 0 to |releases|
      invariant forall release :: release in kept <==> release in releases[..k] && Retained(release, current)
    {
      if Retained(releases[k], current) {
        kept := kept + [releases[k]];
      }
      assert releases[..k + 1] == releases[..k] + [releases[k]];
    }
    assert releases[..|releases|] == releases;
  }

  /** Everything strictly newer than `release` in the list has nothing to select. */
  ghost predicate NothingAbove(releases: seq<Release>, release: Release, fetch: Repository, current: Version,
                               local: string, remote: string, target: string)
    requires TagVersion(release.tag).Some?
  {
    forall other | other in releases && Retained(other, current)
                   && TagVersion(other.tag).value.Newer(TagVersion(release.tag).value) ::
      NothingSelectable(other, fetch, current, local, remote, target)
  }

  lemma ChosenIsNotBroken(release: Release, fetch: Repository, current: Version, local: string, remote: string,
                          target: string, m: Manifest, asset: Asset)
    requires Selectable(release, fetch, current, local, remote, target, m, asset) && asset.name in release.assets
    ensures !Broken(release, fetch, current, local, remote, target)
  {
    hide TagVersion;
    forall other | Offers(m, current, local, remote, target, other) ensures other.name in release.assets {
      OfferIsUnique(m, current, local, remote, target, asset, other);
    }
  }

  /** A broken release that the search must come upon: every other one that is not older has nothing to
      select. */
  ghost predicate StopsTheSearch(releases: seq<Release>, release: Release, fetch: Repository, current: Version,
                                 local: string, remote: string, target: string)
  {
    && release in releases && Broken(release, fetch, current, local, remote, target)
    && forall other | other in releases && other != release && Retained(other, current)
                      && !TagVersion(release.tag).value.Newer(TagVersion(other.tag).value) ::
         NothingSelectable(other, fetch, current, local, remote, target)
  }

  /** One turn of the search: pass over the release, settle on it, or fail. */
  method Examine(release: Release, fetch: Repository, current: string, installed: Version,
                 local: string, remote: string, target: string)
    returns (r: Result<Option<(Manifest, Asset)>, ReleaseError>)
    requires Parse(current) == Some(installed) && Retained(release, installed)
    ensures r.Err? <==> Broken(release, fetch, installed, local, remote, target)
    ensures r.Ok? && r.value.None? ==> NothingSelectable(release, fetch, installed, local, remote, target)
    ensures r.Ok? && r.value.Some? ==>
              && Selectable(release, fetch, installed, local, remote, target, r.value.value.0, r.value.value.1)
              && r.value.value.1.name in release.assets
  {
    hide WellFormed, Offers, Retained;
    if MANIFEST_NAME !in release.assets {
      return Ok(None);
    }
    var fetched := fetch(release.tag);
    if fetched.Err? {
      return Err(fetched.error);
    }
    var manifest := fetched.value;
    if release.tag != "v" + manifest.version {
      return Err(TagMismatch);
    }
    var selected := Select(manifest, current, local, remote, target);
    if selected.Err? {
      return Err(selected.error);
    }
    if selected.value.None? {
      return Ok(None);
    }
    if selected.value.value.name !in release.assets {
      return Err(BinaryMissing);
    }
    ChosenIsNotBroken(release, fetch, installed, local, remote, target, manifest, selected.value.value);
    return Ok(Some((manifest, selected.value.value)));
  }

  /** `listing` is the downloaded and parsed list of releases, or what went wrong with it. */
  method Find(listing: Result<seq<Release>, ReleaseError>, fetch: Repository, current: string, local: string,
              remote: string, target: string)
    returns (r: Result<Option<(Manifest, Asset)>, ReleaseError>)
    // A release that is returned is newer than the installed one, and nothing above it was selectable.
    ensures r.Ok? && r.value.Some? ==>
              listing.Ok? && Parse(current).Some? && exists release ::
                && release in listing.value
                && Selectable(release, fetch, Parse(current).value, local, remote, target, r.value.value.0, r.value.value.1)
                && r.value.value.1.name in release.assets
                && NothingAbove(listing.value, release, fetch, Parse(current).value, local, remote, target)
    // None is returned only when nothing is selectable.
    ensures r.Ok? && r.value.None? ==>
              listing.Ok? && Parse(current).Some? && forall release | release in listing.value ::
                NothingSelectable(release, fetch, Parse(current).value, local, remote, target)
    // An error is bad input, or a broken release that no selectable release is above.
    ensures r.Err? ==>
              || Parse(current).None? || local != remote || listing.Err? || |listing.value| > MAX_RELEASES
              || exists release ::
                   && release in listing.value
                   && Broken(release, fetch, Parse(current).value, local, remote, target)
                   && NothingAbove(listing.value, release, fetch, Parse(current).value, local, remote, target)
    ensures Parse(current).None? || local != remote || listing.Err? || |listing.value| > MAX_RELEASES ==> r.Err?
    // A broken release is never passed over for an older one.
    ensures r.Ok? ==>
              listing.Ok? && Parse(current).Some? && !exists release ::
                StopsTheSearch(listing.value, release, fetch, Parse(current).value, local, remote, target)
  {
    hide TagVersion, Selectable, Broken, Retained, NothingSelectable, NothingAbove, StopsTheSearch;
    var installed := Parse(current);
    if installed.None? {
      return Err(InvalidVersion);
    }
    if local != remote {
      return Err(VersionsDiffer);
    }
    if listing.Err? {
      return Err(listing.error);
    }
    var releases := listing.value;
    if |releases| > MAX_RELEASES {
      return Err(TooManyReleases);
    }
    var kept := Retain(releases, installed.value);
    KeptAreTagged(kept, installed.value);
    var sorted := SortNewestFirst(kept);
    SortIsCorrect(kept);
    SameMembers(sorted, kept);
    for k := 0 to |sorted|
      invariant forall i | 0 <= i < k ::
        && NothingSelectable(sorted[i], fetch, installed.value, local, remote, target)
        && !Broken(sorted[i], fetch, installed.value, local, remote, target)
    {
      var release := sorted[k];
      SearchedAbove(releases, sorted, k, fetch, installed.value, local, remote, target);
      var examined := Examine(release, fetch, current, installed.value, local, remote, target);
      if examined.Err? {
        return examined;
      }
      if examined.value.Some? {
        ChosenIsNotStopped(releases, sorted, k, fetch, installed.value, local, remote, target,
                           examined.value.value.0, examined.value.value.1);
        return examined;
      }
    }
    forall release | release in releases
      ensures NothingSelectable(release, fetch, installed.value, local, remote, target)
    {
      if Retained(release, installed.value) {
        assert release in sorted;
      } else {
        NotRetainedNotSelectable(release, fetch, installed.value, local, remote, target);
      }
    }
    NothingStops(releases, sorted, fetch, installed.value, local, remote, target);
    return Ok(None);
  }

  lemma NothingStops(releases: seq<Release>, sorted: seq<Release>, fetch: Repository, current: Version,
                     local: string, remote: string, target: string)
    requires forall release :: release in sorted <==> release in releases && Retained(release, current)
    requires forall release | release in sorted :: !Broken(release, fetch, current, local, remote, target)
    ensures !exists release :: StopsTheSearch(releases, release, fetch, current, local, remote, target)
  {
    hide TagVersion, NothingSelectable;
    forall release ensures !StopsTheSearch(releases, release, fetch, current, local, remote, target) {
      assert Broken(release, fetch, current, local, remote, target) ==> Retained(release, current);
    }
  }

  lemma ChosenIsNotStopped(releases: seq<Release>, sorted: seq<Release>, k: nat, fetch: Repository, current: Version,
                           local: string, remote: string, target: string, m: Manifest, asset: Asset)
    requires k < |sorted| && Tagged(sorted) && NewestFirst(sorted)
    requires forall release :: release in sorted <==> release in releases && Retained(release, current)
    requires forall i | 0 <= i < k :: !Broken(sorted[i], fetch, current, local, remote, target)
    requires Selectable(sorted[k], fetch, current, local, remote, target, m, asset) && asset.name in sorted[k].assets
    ensures !exists release :: StopsTheSearch(releases, release, fetch, current, local, remote, target)
  {
    hide TagVersion;
    ChosenIsNotBroken(sorted[k], fetch, current, local, remote, target, m, asset);
    forall release ensures !StopsTheSearch(releases, release, fetch, current, local, remote, target) {
      OneReleaseDoesNotStop(releases, sorted, k, release, fetch, current, local, remote, target, m, asset);
    }
  }

  lemma OneReleaseDoesNotStop(releases: seq<Release>, sorted: seq<Release>, k: nat, release: Release,
                              fetch: Repository, current: Version, local: string, remote: string, target: string,
                              m: Manifest, asset: Asset)
    requires k < |sorted| && Tagged(sorted) && NewestFirst(sorted)
    requires forall release :: release in sorted <==> release in releases && Retained(release, current)
    requires forall i | 0 <= i <= k :: !Broken(sorted[i], fetch, current, local, remote, target)
    requires Selectable(sorted[k], fetch, current, local, remote, target, m, asset)
    ensures !StopsTheSearch(releases, release, fetch, current, local, remote, target)
  {
    hide TagVersion, Selectable, NewestFirst;
    assert Broken(release, fetch, current, local, remote, target) ==> Retained(release, current);
    if release in sorted && Broken(release, fetch, current, local, remote, target) {
      hide Broken;
      var i :| 0 <= i < |sorted| && sorted[i] == release;
      LaterIsNotNewer(sorted, k, i);
      assert sorted[k] in releases && sorted[k] != release;
      assert !NothingSelectable(sorted[k], fetch, current, local, remote, target);
    }
  }

  lemma LaterIsNotNewer(sorted: seq<Release>, k: nat, i: nat)
    requires k < i < |sorted| && Tagged(sorted) && NewestFirst(sorted)
    ensures !TagVersion(sorted[i].tag).value.Newer(TagVersion(sorted[k].tag).value)
  {
    hide TagVersion;
    assert NoNewer(sorted[i], sorted[k]);
  }

  lemma NotRetainedNotSelectable(release: Release, fetch: Repository, current: Version, local: string,
                                 remote: string, target: string)
    requires !Retained(release, current)
    ensures NothingSelectable(release, fetch, current, local, remote, target)
  {
  }

  lemma KeptAreTagged(kept: seq<Release>, current: Version)
    requires forall release | release in kept :: Retained(release, current)
    ensures Tagged(kept)
  {
    forall i | 0 <= i < |kept| ensures TagVersion(kept[i].tag).Some? {
      assert kept[i] in kept;
    }
  }

  lemma SameMembers(a: seq<Release>, b: seq<Release>)
    requires multiset(a) == multiset(b)
    ensures forall release :: release in a <==> release in b
  {
    forall release ensures release in a <==> release in b {
      assert release in multiset(a) <==> release in multiset(b);
    }
  }

  lemma NoneBelowIsNewer(sorted: seq<Release>, k: nat)
    requires k < |sorted| && Tagged(sorted) && NewestFirst(sorted)
    ensures forall i | k <= i < |sorted| :: !TagVersion(sorted[i].tag).value.Newer(TagVersion(sorted[k].tag).value)
  {
    hide TagVersion;
    forall i | k <= i < |sorted|
      ensures !TagVersion(sorted[i].tag).value.Newer(TagVersion(sorted[k].tag).value)
    {
      if k < i {
        assert NoNewer(sorted[i], sorted[k]);
      }
    }
  }

  lemma SearchedAbove(releases: seq<Release>, sorted: seq<Release>, k: nat, fetch: Repository, current: Version,
                      local: string, remote: string, target: string)
    requires k < |sorted| && Tagged(sorted) && NewestFirst(sorted)
    requires forall release :: release in sorted <==> release in releases && Retained(release, current)
    requires forall i | 0 <= i < k :: NothingSelectable(sorted[i], fetch, current, local, remote, target)
    ensures sorted[k] in releases && Retained(sorted[k], current)
    ensures NothingAbove(releases, sorted[k], fetch, current, local, remote, target)
  {
    hide TagVersion, NothingSelectable;
    forall other | other in releases && Retained(other, current)
                   && TagVersion(other.tag).value.Newer(TagVersion(sorted[k].tag).value)
      ensures NothingSelectable(other, fetch, current, local, remote, target)
    {
      assert other in sorted;
      NoneBelowIsNewer(sorted, k);
    }
  }

  /** The release that is found is strictly newer than the installed version, and the newest of all
      selectable releases in the list. */
  lemma FoundIsNewest(releases: seq<Release>, release: Release, other: Release, fetch: Repository, current: Version,
                      local: string, remote: string, target: string, m: Manifest, n: Manifest, a: Asset, b: Asset)
    requires Selectable(release, fetch, current, local, remote, target, m, a)
    requires NothingAbove(releases, release, fetch, current, local, remote, target)
    requires other in releases && Selectable(other, fetch, current, local, remote, target, n, b)
    ensures Parse(m.version).Some? && Parse(n.version).Some?
    ensures Parse(m.version).value.Newer(current)
    ensures !Parse(n.version).value.Newer(Parse(m.version).value)
    ensures Parse(m.version) == Parse(n.version) ==> m == n && a == b
    ensures !release.draft && !release.prerelease && release.tag == "v" + m.version
    ensures "rcodex-update.json" in release.assets && fetch(release.tag) == Ok(m)
    ensures local == remote && local in m.codexVersions && a in m.assets && a.target == target
  {
    TagOf(m.version);
    TagOf(n.version);
    assert !NothingSelectable(other, fetch, current, local, remote, target);
    if Parse(m.version) == Parse(n.version) {
      ShowParse(m.version);
      ShowParse(n.version);
      OfferIsUnique(m, current, local, remote, target, a, b);
    }
  }

  lemma TagOf(version: string)
    ensures TagVersion("v" + version) == Parse(version)
  {
    assert ("v" + version)[1..] == version;
  }
}
