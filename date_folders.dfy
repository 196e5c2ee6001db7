/**
 * The folder-selection step of `find_latest_date_folder`: strip the trailing
 * '/' of every top-level prefix of the bucket, keep the names that parse as a
 * `YYYY-MM-DD` date, and return the greatest of them as a string.
 */
module DateFolders {
  import opened Wrappers
  import opened Text

  /** The distinct folder names among `prefixes` that the date parser accepts. */
  ghost function DateFoldersOf(prefixes: seq<string>, looksLikeDate: string -> bool): set<string> {
    set p | p in prefixes && looksLikeDate(TrimTrailing(p, '/')) :: TrimTrailing(p, '/')
  }

  /**
   * The latest date folder, or None when no prefix names a date. The
   * `strptime(folder, '%Y-%m-%d')` test is the parameter `looksLikeDate`.
   */
  method LatestDateFolder(prefixes: seq<string>, looksLikeDate: string -> bool) returns (latest: Option<string>)
    ensures latest.None? <==> DateFoldersOf(prefixes, looksLikeDate) == {}
    ensures latest.Some? ==>
              latest.value in DateFoldersOf(prefixes, looksLikeDate)
              && forall f :: f in DateFoldersOf(prefixes, looksLikeDate) ==> LexLessEq(f, latest.value)
  {
    var dateFolders: set<string> := {};
    for i := 0 to |prefixes|
      invariant dateFolders == DateFoldersOf(prefixes[..i], looksLikeDate)
    {
      assert prefixes[..i + 1] == prefixes[..i] + [prefixes[i]];
      var folder := TrimTrailing(prefixes[i], '/');
      if looksLikeDate(folder) {
        dateFolders := dateFolders + {folder};
      }
    }
    assert prefixes[..|prefixes|] == prefixes;
    if dateFolders == {} {
      return None;
    }
    var m := Greatest(dateFolders);
    return Some(m);
  }

  /** Two greatest elements of one set are the same folder, so the answer does not depend on order. */
  lemma GreatestIsUnique(folders: set<string>, a: string, b: string)
    requires a in folders && forall f :: f in folders ==> LexLessEq(f, a)
    requires b in folders && forall f :: f in folders ==> LexLessEq(f, b)
    ensures a == b
  {
    assert LexLessEq(a, b) && LexLessEq(b, a);
    if a != b {
      LexLessAsymmetric(a, b);
    }
  }

  /** Prefixes that differ only in trailing slashes name the same folder. */
  lemma {:induction false} TrailingSlashesAreIgnored(name: string, slashes: nat)
    ensures TrimTrailing(name + seq(slashes, _ => '/'), '/') == TrimTrailing(name, '/')
    decreases slashes
  {
    if slashes > 0 {
      var s := name + seq(slashes, _ => '/');
      assert s[..|s| - 1] == name + seq(slashes - 1, _ => '/');
      TrailingSlashesAreIgnored(name, slashes - 1);
    } else {
      assert name + seq(0, _ => '/') == name;
    }
  }
}
