/**
 * The paths a source archive may contain (`validate_package_path` in
 * materializer/src/service.rs): a portable subset of what publication itself accepts.
 */
module PackagePaths {
  import opened Text
  import Publication

  predicate IsAlphanumeric(c: char) {
    'a' <= c <= 'z' || 'A' <= c <= 'Z' || IsDigit(c)
  }

  predicate IsComponentChar(c: char) {
    IsAlphanumeric(c) || c in "$()+-.@[]_{}~"
  }

  function LowerChar(c: char): char {
    if 'A' <= c <= 'Z' then c - 'A' + 'a' else c
  }

  /** `to_ascii_lowercase`. */
  function Lower(s: string): (r: string)
    ensures |r| == |s|
  {
    seq(|s|, i requires 0 <= i < |s| => LowerChar(s[i]))
  }

  const RESERVED: seq<string> :=
    [ "aux", "com1", "com2", "com3", "com4", "com5", "com6", "com7", "com8", "com9", "con", "lpt1", "lpt2",
      "lpt3", "lpt4", "lpt5", "lpt6", "lpt7", "lpt8", "lpt9", "nul", "prn" ]

  /** The part before the last dot, or all of it. */
  function Stem(component: string): string {
    if '.' !in component then component
    else if component[|component| - 1] == '.' then component[..|component| - 1]
    else Stem(component[..|component| - 1])
  }

  predicate ValidComponent(component: string) {
    && Publication.IsPlain(component)
    && !EndsWith(component, ".")
    && (forall c :: c in component ==> IsComponentChar(c))
    && Lower(Stem(component)) !in RESERVED
  }

  predicate IsPackagePath(path: string) {
    var components := Split(path, '/');
    && |path| <= 154
    && (forall component :: component in components ==> ValidComponent(component))
    && |components[|components| - 1]| <= 95
    && Lower(components[0]) != ".git"
    && Lower(components[0]) != "_dist"
  }

  /** Publication never rejects such a path. */
  lemma PackagePathIsValid(path: string)
    requires IsPackagePath(path)
    ensures Publication.ValidPath(path)
  {
    assert ValidComponent(Split(path, '/')[0]);
  }

  // ----- which paths those are -------------------------------------------------------------

  /** ASCII letters in lower case, everything else as it is. */
  lemma LowerExactly(s: string, i: nat)
    requires i < |s|
    ensures 'A' <= s[i] <= 'Z' ==> Lower(s)[i] as int == s[i] as int + 32
    ensures !('A' <= s[i] <= 'Z') ==> Lower(s)[i] == s[i]
  {
  }

  /** A stem and an extension: what is before the last dot. */
  lemma {:induction false} StemExactly(stem: string, extension: string)
    requires '.' !in extension
    ensures Stem(stem + "." + extension) == stem && Stem(extension) == extension
    decreases |extension|
  {
    var s := stem + "." + extension;
    assert s[|stem|] == '.';
    if extension == "" {
      assert s[..|s| - 1] == stem;
    } else {
      var shorter := extension[..|extension| - 1];
      assert s[|s| - 1] == extension[|extension| - 1];
      assert s[..|s| - 1] == stem + "." + shorter;
      StemExactly(stem, shorter);
    }
  }

  /** The device names of another system, which are reserved there with any extension. */
  ghost predicate IsDevice(s: string) {
    || s in ["aux", "con", "nul", "prn"]
    || s in ["com1", "com2", "com3", "com4", "com5", "com6", "com7", "com8", "com9"]
    || s in ["lpt1", "lpt2", "lpt3", "lpt4", "lpt5", "lpt6", "lpt7", "lpt8", "lpt9"]
  }

  /** A name of letters, digits and a few signs, not ending in a dot, and no device's. */
  ghost predicate IsPortableName(name: string) {
    && name != "" && name != "." && name != ".." && name[|name| - 1] != '.'
    && (forall c :: c in name ==>
          'a' <= c <= 'z' || 'A' <= c <= 'Z' || '0' <= c <= '9' || c in "$()+-.@[]_{}~")
    && !IsDevice(Lower(Stem(name)))
  }

  lemma ValidComponentExactly(name: string)
    ensures ValidComponent(name) <==> IsPortableName(name)
  {
    if name != "" {
      assert name[|name| - 1..] == [name[|name| - 1]];
    }
  }

  ghost predicate AllPortable(names: seq<string>) {
    forall i :: 0 <= i < |names| ==> IsPortableName(names[i])
  }

  lemma AllComponentsExactly(names: seq<string>)
    ensures (forall name :: name in names ==> ValidComponent(name)) <==> AllPortable(names)
  {
    forall name
      ensures ValidComponent(name) <==> IsPortableName(name)
    {
      ValidComponentExactly(name);
    }
  }

  /**
   * The accepted paths: portable names, the whole at most 154 characters and the last at most 95,
   * not below `.git` or `_dist` in any case.
   */
  lemma PackagePathExactly(path: string)
    ensures var names := Split(path, '/');
            IsPackagePath(path) <==>
              && |path| <= 154 && |names[|names| - 1]| <= 95 && AllPortable(names)
              && Lower(names[0]) != ".git" && Lower(names[0]) != "_dist"
  {
    AllComponentsExactly(Split(path, '/'));
  }
}
