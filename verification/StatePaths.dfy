/** Where a cluster keeps its state, its secrets and its pending marker, and when two clusters share a file. */
module StatePaths {

  datatype Kind = StateFile | SecretsFile | PendingFile

  function Suffix(kind: Kind): string {
    match kind
    case StateFile => ""
    case SecretsFile => "-secrets"
    case PendingFile => "-pending"
  }

  function PathOf(directory: string, name: string, kind: Kind): string {
    directory + "/" + name + Suffix(kind) + ".toml"
  }

  lemma {:induction false} SamePath(directory: string, a: string, k: Kind, b: string, l: Kind)
    ensures PathOf(directory, a, k) == PathOf(directory, b, l) <==> a + Suffix(k) == b + Suffix(l)
  {
    var head := directory + "/";
    var p, q := PathOf(directory, a, k), PathOf(directory, b, l);
    assert p == head + (a + Suffix(k)) + ".toml" && q == head + (b + Suffix(l)) + ".toml";
    if p == q {
      assert p[|head|..|p| - 5] == a + Suffix(k);
      assert q[|head|..|q| - 5] == b + Suffix(l);
    }
  }

  lemma SuffixesDiffer(a: string, b: string)
    ensures a + "-secrets" != b + "-pending"
  {
    assert (a + "-secrets")[|a + "-secrets"| - 1] == 's';
    assert (b + "-pending")[|b + "-pending"| - 1] == 'g';
  }

  lemma SameSuffix(a: string, b: string, k: Kind)
    ensures a + Suffix(k) == b + Suffix(k) <==> a == b
  {
    if a + Suffix(k) == b + Suffix(k) {
      assert |a| == |b|;
      assert (a + Suffix(k))[..|a|] == a && (b + Suffix(k))[..|b|] == b;
    }
  }

  /** `b`'s name is `a`'s with the suffix of one of `a`'s other files. */
  predicate Shadows(a: string, b: string) {
    b == a + "-secrets" || b == a + "-pending"
  }

  ghost predicate ShareAFile(directory: string, a: string, b: string) {
    exists k, l :: PathOf(directory, a, k) == PathOf(directory, b, l)
  }

  /** The secrets file and the marker of a cluster are where a cluster with the suffixed name keeps its state. */
  lemma OtherFilesAreStates(directory: string, name: string)
    ensures PathOf(directory, name, SecretsFile) == PathOf(directory, name + "-secrets", StateFile)
    ensures PathOf(directory, name, PendingFile) == PathOf(directory, name + "-pending", StateFile)
    ensures PathOf(directory, name, StateFile) == directory + "/" + name + ".toml"
  {
    hide PathOf;
    SamePath(directory, name, SecretsFile, name + "-secrets", StateFile);
    SamePath(directory, name, PendingFile, name + "-pending", StateFile);
    assert name + "-secrets" + "" == name + "-secrets" && name + "-pending" + "" == name + "-pending";
    PathOfState(directory, name);
  }

  lemma PathOfState(directory: string, name: string)
    ensures PathOf(directory, name, StateFile) == directory + "/" + name + ".toml"
  {
    assert directory + "/" + name + "" == directory + "/" + name;
  }

  /** Two clusters share a file exactly when they have one name or one shadows the other. */
  lemma ShareAFileExactly(directory: string, a: string, b: string)
    ensures ShareAFile(directory, a, b) <==> a == b || Shadows(a, b) || Shadows(b, a)
  {
    hide PathOf;
    if ShareAFile(directory, a, b) {
      var k, l :| PathOf(directory, a, k) == PathOf(directory, b, l);
      SamePath(directory, a, k, b, l);
      SuffixesDiffer(a, b);
      SuffixesDiffer(b, a);
      SameSuffix(a, b, k);
      assert a + "" == a && b + "" == b;
    }
    if a == b {
      assert PathOf(directory, a, StateFile) == PathOf(directory, b, StateFile);
    } else if Shadows(a, b) {
      var k := if b == a + "-secrets" then SecretsFile else PendingFile;
      SamePath(directory, a, k, b, StateFile);
      assert b + "" == b;
    } else if Shadows(b, a) {
      var l := if a == b + "-secrets" then SecretsFile else PendingFile;
      SamePath(directory, a, StateFile, b, l);
      assert a + "" == a;
    }
  }

  /** The three files of one cluster are always different. */
  lemma OwnFilesDiffer(directory: string, name: string, k: Kind, l: Kind)
    requires k != l
    ensures PathOf(directory, name, k) != PathOf(directory, name, l)
  {
    SamePath(directory, name, k, name, l);
    SuffixesDiffer(name, name);
    assert |name + Suffix(k)| == |name| + |Suffix(k)| && |name + Suffix(l)| == |name| + |Suffix(l)|;
  }
}
