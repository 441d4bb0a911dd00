/**
 * The basename of an object key: the key without its extension, where the
 * extension is what Go's `path.Ext` returns (from the last '.' of the final
 * slash-separated element to the end) and is removed with `strings.TrimSuffix`.
 */
module ObjectKeys {
  import opened Wrappers

  /** Index of the dot that starts the extension, if the final element has one. */
  function ExtStart(key: string): (r: Option<nat>)
    ensures r.Some? ==> r.value < |key| && key[r.value] == '.'
    ensures r.Some? ==> forall j :: r.value < j < |key| ==> key[j] != '.' && key[j] != '/'
    ensures r.None? ==> forall j :: 0 <= j < |key| && key[j] == '.' ==> '/' in key[j + 1..]
  {
    if key == [] then None
    else
      var c := key[|key| - 1];
      if c == '/' then None
      else if c == '.' then Some(|key| - 1)
      else
        ExtStart(key[..|key| - 1])
  }

  /**
   * `path.Ext`: the suffix of the key from the last '.' of its final
   * slash-separated element, or "" when that element holds no '.'.
   */
  function Ext(key: string): (ext: string)
    ensures ext == [] <==> ExtStart(key).None?
    ensures ext != [] ==> ext[0] == '.' && |ext| <= |key| && key[|key| - |ext|..] == ext
    ensures forall j :: 0 < j < |ext| ==> ext[j] != '.' && ext[j] != '/'
  {
    match ExtStart(key)
    case None => ""
    case Some(i) => key[i..]
  }

  /** `strings.TrimSuffix`: drops `suffix` from the end of `s` if it is there. */
  function TrimSuffix(s: string, suffix: string): (r: string)
    ensures |suffix| <= |s| && s[|s| - |suffix|..] == suffix ==> r + suffix == s
    ensures !(|suffix| <= |s| && s[|s| - |suffix|..] == suffix) ==> r == s
  {
    if |suffix| <= |s| && s[|s| - |suffix|..] == suffix then s[..|s| - |suffix|] else s
  }

  /**
   * The name matched against the pattern. The three ensures determine it:
   * it is a prefix of the key; if shorter, the rest starts with a dot and
   * holds neither a dot nor a slash after it; if it is the whole key, every
   * dot of the key lies before some slash.
   */
  function Basename(key: string): (b: string)
    ensures |b| <= |key| && b == key[..|b|]
    ensures |b| < |key| ==> key[|b|] == '.' && forall j :: |b| < j < |key| ==> key[j] != '.' && key[j] != '/'
    ensures |b| == |key| ==> forall j :: 0 <= j < |key| && key[j] == '.' ==> '/' in key[j + 1..]
  {
    var ext := Ext(key);
    if ext != "" then TrimSuffix(key, ext) else key
  }

  lemma BasenameOfArchive()
    ensures Basename("app-1.tar.gz") == "app-1.tar"
  {
    assert ExtStart("app-1.tar.") == Some(9);
    assert "app-1.tar.g"[..10] == "app-1.tar.";
    assert ExtStart("app-1.tar.g") == Some(9);
    assert "app-1.tar.gz"[..11] == "app-1.tar.g";
    assert ExtStart("app-1.tar.gz") == Some(9);
  }

  lemma BasenameOfDottedVersion()
    ensures Basename("app-1.0-3") == "app-1"
  {
    assert ExtStart("app-1.") == Some(5);
    assert ExtStart("app-1.0") == Some(5);
    assert ExtStart("app-1.0-") == Some(5);
    assert "app-1.0-3"[..8] == "app-1.0-";
    assert ExtStart("app-1.0-3") == Some(5);
  }

  lemma BasenameWithDotInDirectory()
    ensures Basename("v1.2/app") == "v1.2/app"
  {
    assert ExtStart("v1.2/") == None;
    assert ExtStart("v1.2/a") == None;
    assert ExtStart("v1.2/ap") == None;
    assert "v1.2/app"[..7] == "v1.2/ap";
    assert ExtStart("v1.2/app") == None;
  }
}
