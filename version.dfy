/**
 * Version reporting of version.go: an explicit build version, else the
 * first non-empty VCS revision of the build settings, else the link-time
 * commit, else "dev". Build variables and the runtime's build information
 * are inputs.
 */
module Version {
  import opened Wrappers

  datatype Setting = Setting(key: string, value: string)

  /**
   * The build's inputs: the two link-time variables, and the runtime build
   * settings when build information is available (`None` when it is not).
   */
  datatype BuildInfo = BuildInfo(buildVersion: string, buildCommit: string, settings: Option<seq<Setting>>)

  const DevVersion: string := "dev"
  const UnknownCommit: string := "unknown"
  const RevisionKey: string := "vcs.revision"
  const HashLength: nat := 7
  const UserAgentPrefix: string := "matthewgall/octoevents/"

  /** The short form of a commit hash: its first seven characters, or all of it when shorter. */
  function ShortHash(s: string): (r: string)
    ensures r <= s
    ensures |r| == if |s| >= HashLength then HashLength else |s|
  {
    if |s| >= HashLength then s[..HashLength] else s
  }

  predicate IsRevision(setting: Setting) {
    setting.key == RevisionKey && setting.value != ""
  }

  /** The value of the first setting that is a non-empty VCS revision. */
  function FirstRevision(settings: seq<Setting>): (r: Option<string>)
    ensures r.None? <==> forall i :: 0 <= i < |settings| ==> !IsRevision(settings[i])
    ensures r.Some? ==> exists i :: 0 <= i < |settings| && IsRevision(settings[i]) && settings[i].value == r.value &&
                                    forall j :: 0 <= j < i ==> !IsRevision(settings[j])
  {
    if settings == [] then None
    else if IsRevision(settings[0]) then Some(settings[0].value)
    else
      var r := FirstRevision(settings[1..]);
      assert forall i :: 1 <= i < |settings| ==> settings[i] == settings[1..][i - 1];
      r
  }

  /** The version GetVersion reports for a build. */
  function VersionOf(b: BuildInfo): string {
    if b.buildVersion != DevVersion && b.buildVersion != "" then b.buildVersion
    else if b.settings.Some? && FirstRevision(b.settings.value).Some? then ShortHash(FirstRevision(b.settings.value).value)
    else if b.buildCommit != UnknownCommit && b.buildCommit != "" then ShortHash(b.buildCommit)
    else DevVersion
  }

  /** GetVersion: the fallback chain, scanning the build settings with an early return. */
  method GetVersion(b: BuildInfo) returns (v: string)
    ensures v == VersionOf(b)
  {
    if b.buildVersion != DevVersion && b.buildVersion != "" {
      return b.buildVersion;
    }
    if b.settings.Some? {
      var settings := b.settings.value;
      for i := 0 to |settings|
        invariant FirstRevision(settings) == FirstRevision(settings[i..])
      {
        assert settings[i..][1..] == settings[i + 1..];
        if settings[i].key == RevisionKey && settings[i].value != "" {
          if |settings[i].value| >= HashLength {
            return settings[i].value[..HashLength];
          }
          return settings[i].value;
        }
      }
      assert settings[|settings|..] == [];
    }
    if b.buildCommit != UnknownCommit && b.buildCommit != "" {
      if |b.buildCommit| >= HashLength {
        return b.buildCommit[..HashLength];
      }
      return b.buildCommit;
    }
    return DevVersion;
  }

  /** GetUserAgent: the fixed product prefix followed by the version. */
  method GetUserAgent(b: BuildInfo) returns (ua: string)
    ensures ua == UserAgentPrefix + VersionOf(b)
  {
    var v := GetVersion(b);
    ua := UserAgentPrefix + v;
  }

  predicate NoExplicitVersion(b: BuildInfo) {
    b.buildVersion == DevVersion || b.buildVersion == ""
  }

  predicate NoRevision(b: BuildInfo) {
    b.settings.None? || forall i :: 0 <= i < |b.settings.value| ==> !IsRevision(b.settings.value[i])
  }

  /** An explicit build version other than "dev" is reported verbatim. */
  lemma ExplicitVersionRule(b: BuildInfo)
    requires !NoExplicitVersion(b)
    ensures VersionOf(b) == b.buildVersion
  {
  }

  /** Without an explicit version, the first non-empty revision setting is reported, shortened. */
  lemma RevisionRule(b: BuildInfo)
    requires NoExplicitVersion(b) && !NoRevision(b)
    ensures exists i :: 0 <= i < |b.settings.value| && IsRevision(b.settings.value[i]) &&
              (forall j :: 0 <= j < i ==> !IsRevision(b.settings.value[j])) &&
              VersionOf(b) == ShortHash(b.settings.value[i].value)
  {
    var settings := b.settings.value;
    var r := FirstRevision(settings);
    var i :| 0 <= i < |settings| && IsRevision(settings[i]) && settings[i].value == r.value &&
             forall j :: 0 <= j < i ==> !IsRevision(settings[j]);
    assert VersionOf(b) == ShortHash(settings[i].value);
  }

  /** Without a version or a revision, a link-time commit other than "unknown" is reported, shortened. */
  lemma CommitRule(b: BuildInfo)
    requires NoExplicitVersion(b) && NoRevision(b)
    requires b.buildCommit != UnknownCommit && b.buildCommit != ""
    ensures VersionOf(b) == ShortHash(b.buildCommit)
  {
  }

  /** With none of the three, the version is "dev". */
  lemma DevRule(b: BuildInfo)
    requires NoExplicitVersion(b) && NoRevision(b)
    requires b.buildCommit == UnknownCommit || b.buildCommit == ""
    ensures VersionOf(b) == DevVersion
  {
  }

  /** The reported version is never empty, and apart from an explicit version it is at most seven characters. */
  lemma VersionShape(b: BuildInfo)
    ensures VersionOf(b) != ""
    ensures VersionOf(b) != b.buildVersion ==> |VersionOf(b)| <= HashLength
  {
  }
}
