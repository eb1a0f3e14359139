/** The object keys of the release bucket, and the names of the assets a release lists. */
module ReleaseKeys {
  import opened Text
  import opened VersionGrammar

  const METADATA := "release.json"
  const INSTALLERS: seq<string> := ["install.sh", "install.ps1"]

  const RELEASES := "codex/releases/"
  const CHANNELS := "codex/channels/"
  const ROOT := "codex/"

  function VersionPrefix(version: string): string { RELEASES + version + "/" }

  function AssetKey(version: string, name: string): string { VersionPrefix(version) + name }

  function MetadataKey(version: string): string { AssetKey(version, METADATA) }

  function ChannelKey(channel: string): string { CHANNELS + channel }

  function AliasKey(name: string): string { ROOT + name }

  /** The channels a `finalize` run moves, in order. */
  function Channels(makeLatest: bool, prerelease: bool): seq<string> {
    (if makeLatest then ["latest"] else []) + (if prerelease then ["prerelease"] else [])
  }

  /** Keys under the immutable prefix. */
  predicate Versioned(key: string) { RELEASES <= key }

  lemma AssetKeyVersioned(version: string, name: string)
    ensures Versioned(AssetKey(version, name)) && VersionPrefix(version) <= AssetKey(version, name)
  {
    assert AssetKey(version, name)[..|RELEASES|] == RELEASES;
    assert AssetKey(version, name)[..|VersionPrefix(version)|] == VersionPrefix(version);
  }

  lemma ChannelKeyMutable(channel: string)
    ensures !Versioned(ChannelKey(channel)) && ChannelKey(channel)[6] == 'c'
  {
    assert ChannelKey(channel)[6] == 'c' && RELEASES[6] == 'r';
  }

  lemma AliasKeyMutable(name: string)
    requires name in INSTALLERS
    ensures !Versioned(AliasKey(name)) && AliasKey(name)[6] == 'i'
  {
    assert AliasKey(name)[6] == name[0] == 'i' && RELEASES[6] == 'r';
  }

  /** The three families of keys do not meet, and within a family the key tells the name. */
  lemma KeysApart(version: string, name: string, channel: string, installer: string)
    requires installer in INSTALLERS
    ensures AssetKey(version, name) != ChannelKey(channel)
    ensures AssetKey(version, name) != AliasKey(installer)
    ensures ChannelKey(channel) != AliasKey(installer)
  {
    AssetKeyVersioned(version, name);
    ChannelKeyMutable(channel);
    AliasKeyMutable(installer);
  }

  lemma {:induction false} SlashSplits(v: string, n: string, v': string, n': string)
    requires '/' !in v && '/' !in v' && v + "/" + n == v' + "/" + n'
    ensures v == v' && n == n'
  {
    var k := v + "/" + n;
    assert k[|v|] == '/' && k[|v'|] == '/';
    assert forall i :: 0 <= i < |v| ==> k[i] == v[i];
    assert forall i :: 0 <= i < |v'| ==> k[i] == v'[i];
    assert |v| == |v'|;
    assert v == k[..|v|] == v';
    assert n == k[|v| + 1..] == n';
  }

  /** A version without a separator and a name are recovered from the key. */
  lemma AssetKeyInjective(v: string, n: string, v': string, n': string)
    requires '/' !in v && '/' !in v' && AssetKey(v, n) == AssetKey(v', n')
    ensures v == v' && n == n'
  {
    assert AssetKey(v, n) == RELEASES + (v + "/" + n);
    assert AssetKey(v', n') == RELEASES + (v' + "/" + n');
    assert AssetKey(v, n)[|RELEASES|..] == v + "/" + n;
    assert AssetKey(v', n')[|RELEASES|..] == v' + "/" + n';
    SlashSplits(v, n, v', n');
  }

  /** A key of one version is under no other version's prefix. */
  lemma PrefixInjective(v: string, n: string, v': string)
    requires '/' !in v && '/' !in v' && VersionPrefix(v') <= AssetKey(v, n)
    ensures v == v'
  {
    var k := AssetKey(v, n);
    var n' := k[|VersionPrefix(v')|..];
    assert k == AssetKey(v', n');
    AssetKeyInjective(v, n, v', n');
  }
}
