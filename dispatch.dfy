/**
 * How `main` picks the manifest to patch from the input path: an `.apk`
 * (converted to the proto format first), an `.aab` bundle, or a bare
 * compiled manifest file.
 */
module Dispatch {

  import opened Wrappers

  datatype Container = Apk | Aab | BareManifest

  predicate HasSuffix(s: string, suffix: string)
  {
    |suffix| <= |s| && s[|s| - |suffix|..] == suffix
  }

  /** The container kind, by file-name suffix; the `.apk` test comes first. */
  function ContainerOf(path: string): (k: Container)
    ensures k == Apk <==> HasSuffix(path, ".apk")
    ensures k == Aab <==> HasSuffix(path, ".aab")
    ensures k == BareManifest <==> !HasSuffix(path, ".apk") && !HasSuffix(path, ".aab")
  {
    if HasSuffix(path, ".apk") then Apk
    else if HasSuffix(path, ".aab") then Aab
    else BareManifest
  }

  /** The archive entry holding the manifest; a bare manifest file is patched directly. */
  function ManifestEntry(k: Container): (r: Option<string>)
    ensures r.None? <==> k == BareManifest
  {
    match k
    case Apk => Some("AndroidManifest.xml")
    case Aab => Some("base/manifest/AndroidManifest.xml")
    case BareManifest => None
  }

  /** No path ends in both suffixes, so the order of the two tests does not matter. */
  lemma SuffixesExclusive(path: string)
    ensures !(HasSuffix(path, ".apk") && HasSuffix(path, ".aab"))
  {
    if HasSuffix(path, ".apk") {
      assert path[|path| - 1] == 'k';
    }
  }

  lemma DispatchExamples()
    ensures ManifestEntry(ContainerOf("app.apk")) == Some("AndroidManifest.xml")
    ensures ManifestEntry(ContainerOf("bundle.aab")) == Some("base/manifest/AndroidManifest.xml")
    ensures ContainerOf("AndroidManifest.xml") == BareManifest
  {
    assert !HasSuffix("bundle.aab", ".apk") by {
      assert "bundle.aab"[9] != ".apk"[3];
    }
    assert !HasSuffix("AndroidManifest.xml", ".apk") by {
      assert "AndroidManifest.xml"[18] != ".apk"[3];
    }
    assert !HasSuffix("AndroidManifest.xml", ".aab") by {
      assert "AndroidManifest.xml"[18] != ".aab"[3];
    }
  }
}
