/**
 * The skip rules told in one piece, and the tree of a Maven project as an example: names that
 * other projects skip anywhere are skipped in a Java project only near the top.
 */
module SkipFacts {
  import opened DiscoveryTree
  import opened SkipPolicy

  /** Capital letters have the codes 65 to 90, small letters 32 more. */
  lemma LowerByCode(c: char)
    ensures 65 <= c as int <= 90 ==> LowerChar(c) as int == c as int + 32
    ensures !(65 <= c as int <= 90) ==> LowerChar(c) == c
  {
  }

  /** A component for which an entry is skipped at any depth. */
  predicate NamesAnywhere(p: Policy, java: bool, name: string) {
    if Lower(name) in p.active then !java || Lower(name) !in p.guarded
    else exists x | x in p.prefixes :: x <= Lower(name)
  }

  /** A component for which an entry is skipped if it is the first, second or third. */
  predicate NamesNearTop(p: Policy, java: bool, name: string) {
    name != "" && (Lower(name) in p.topOnly || (java && Lower(name) in p.guarded))
  }

  lemma SkipsMeans(p: Policy, java: bool, path: Path, isDir: bool)
    ensures Skips(p, java, path, isDir) <==>
      && path != []
      && (|| (exists i | 0 <= i < |path| :: NamesAnywhere(p, java, path[i]))
          || NamesNearTop(p, java, path[0])
          || (|path| > 1 && NamesNearTop(p, java, path[1]))
          || (|path| > 2 && NamesNearTop(p, java, path[2]))
          || p.others(path, isDir))
  {
    forall i | 0 <= i < |path|
      ensures SkipsName(p, java, path[i]) <==> NamesAnywhere(p, java, path[i])
      ensures SkipsNearTop(p, java, path[i]) <==> NamesNearTop(p, java, path[i])
    {
      NameMeans(p, java, path[i]);
    }
    hide SkipsName, SkipsNearTop, NamesAnywhere, NamesNearTop;
  }

  lemma NameMeans(p: Policy, java: bool, name: string)
    ensures SkipsName(p, java, name) <==> NamesAnywhere(p, java, name)
    ensures SkipsNearTop(p, java, name) <==> NamesNearTop(p, java, name)
  {
    hide Lower;
  }

  // ---- One file in the walk ----

  /** Why a file is not looked at, or its language not accepted, in the order of the checks. */
  lemma VisitFileMeans(h: Host, p: Policy, path: Path, java: bool)
    requires path != []
    ensures var r := VisitFile(h, p, path, java);
      var seen := && !(|path| == 1 && h.readme(path[0])) && !Skips(p, java, path, false) && !h.upToDate(path)
                  && h.language(path) != Unknown;
      && (r.jobs == [path] <==> seen && h.accepted(h.language(path)))
      && (r.jobs == [path] || r.jobs == [])
      && (r.java <==> java || (seen && h.language(path) == Java))
  {
    hide Skips;
  }

  // ---- A Maven project ----

  const NAMES := Policy({"samples"}, {"build_"}, {}, {"samples"}, (f: Path, d: bool) => false)

  /** A package component named like a folder of samples: kept in a Java project, skipped in any other. */
  lemma DeepSamples(java: bool, a: string, b: string, c: string)
    requires IsOther(a) && IsOther(b) && IsOther(c)
    ensures Skips(NAMES, java, [a, b, c, "samples"], true) <==> !java
    ensures Skips(NAMES, java, [a, b, "samples"], true)
  {
    var deep, near := [a, b, c, "samples"], [a, b, "samples"];
    forall name | name == a || name == b || name == c
      ensures !SkipsName(NAMES, java, name) && !SkipsNearTop(NAMES, java, name)
    {
      NotListed(name, java);
    }
    Listed(java);
    hide SkipsName, SkipsNearTop;
    assert deep[3] == "samples" && near[2] == "samples";
    assert forall i | 0 <= i < 3 :: deep[i] == a || deep[i] == b || deep[i] == c;
    assert !java ==> SkipsName(NAMES, java, deep[3]);
  }

  /** A name that neither list has. */
  predicate IsOther(name: string) { Lower(name) != "samples" && !("build_" <= Lower(name)) }

  lemma NotListed(name: string, java: bool)
    requires IsOther(name)
    ensures !SkipsName(NAMES, java, name) && !SkipsNearTop(NAMES, java, name)
  {
    hide Lower;
  }

  lemma Listed(java: bool)
    ensures SkipsName(NAMES, java, "samples") <==> !java
    ensures SkipsNearTop(NAMES, java, "samples") <==> java
  {
    assert Lower("samples") == "samples";
    hide Lower;
  }

  /** Whatever the case of its letters, and with a listed beginning. */
  lemma CaseAndPrefix(name: string, java: bool)
    ensures Lower(name) == "samples" && !java ==> SkipsName(NAMES, java, name)
    ensures "build_" <= Lower(name) ==> SkipsName(NAMES, java, name)
    ensures Lower("SamPles") == "samples"
  {
    assert Lower("SamPles") == "samples";
    hide Lower;
    if "build_" <= Lower(name) {
      WithPrefix(Lower(name));
    }
  }

  lemma WithPrefix(lower: string)
    requires "build_" <= lower
    ensures HasPrefix(NAMES, lower) && lower != "samples"
  {
    assert "build_" in NAMES.prefixes && lower[0] == 'b' && "samples"[0] == 's';
  }
}
