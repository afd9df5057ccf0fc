/** Paths and the temporary name that `with_extension("tmp")` gives them (src/util.rs). */
module Paths {

  /** A path whose last component is `name`; `""`, `"."` and `".."` stand for no file name. */
  datatype Path = Path(directory: string, name: string)

  predicate HasFileName(p: Path) {
    p.name != "" && p.name != "." && p.name != ".."
  }

  /** The offset of the last dot, or the length when there is none. */
  function LastDot(name: string): (at: nat)
    ensures at <= |name|
    ensures at < |name| ==> name[at] == '.'
    ensures forall i :: at < i < |name| ==> name[i] != '.'
    ensures at == |name| ==> '.' !in name
  {
    if name == "" then 0
    else if name[|name| - 1] == '.' then |name| - 1
    else
      var at := LastDot(name[..|name| - 1]);
      if at == |name| - 1 then |name| else at
  }

  /** `file_stem`: a dot in front starts no extension. */
  function Stem(name: string): (stem: string)
    ensures name != "" ==> stem != ""
  {
    if LastDot(name) == 0 then name else name[..LastDot(name)]
  }

  function TemporaryPath(p: Path): Path {
    if HasFileName(p) then p.(name := Stem(p.name) + ".tmp") else p
  }

  /** A path that is its own temporary. */
  predicate IsOwnTemporary(p: Path) {
    !HasFileName(p) || (|p.name| > 4 && p.name[|p.name| - 4..] == ".tmp")
  }

  lemma LastDotIs(name: string, at: nat)
    requires at < |name| && name[at] == '.'
    requires forall i :: at < i < |name| ==> name[i] != '.'
    ensures LastDot(name) == at
  {
    assert name[at] in name;
  }

  lemma StemOfTemporary(stem: string)
    requires stem != ""
    ensures Stem(stem + ".tmp") == stem
  {
    LastDotIs(stem + ".tmp", |stem|);
  }

  /** Exactly the paths without a file name and those that already end in `.tmp` behind
      something are their own temporaries. */
  lemma OwnTemporaryExactly(p: Path)
    ensures TemporaryPath(p) == p <==> IsOwnTemporary(p)
  {
    if HasFileName(p) {
      var stem := Stem(p.name);
      if p.name == stem + ".tmp" {
        assert p.name[|p.name| - 4..] == ".tmp";
      }
      if IsOwnTemporary(p) {
        var front := p.name[..|p.name| - 4];
        assert p.name == front + ".tmp";
        StemOfTemporary(front);
      }
    }
  }

  /** Taking the temporary again changes nothing. */
  lemma TemporaryIsStable(p: Path)
    ensures TemporaryPath(TemporaryPath(p)) == TemporaryPath(p)
  {
    if HasFileName(p) {
      StemOfTemporary(Stem(p.name));
    }
  }

  /** Two files share their temporary exactly when they stand in one directory with one stem,
      as `server.pem` and `server.key` do. */
  lemma SharedTemporaryExactly(p: Path, q: Path)
    requires HasFileName(p) && HasFileName(q)
    ensures TemporaryPath(p) == TemporaryPath(q) <==> p.directory == q.directory && Stem(p.name) == Stem(q.name)
  {
    var a, b := Stem(p.name) + ".tmp", Stem(q.name) + ".tmp";
    assert a[..|a| - 4] == Stem(p.name) && b[..|b| - 4] == Stem(q.name);
  }

  lemma StemInWords(stem: string, extension: string)
    requires '.' !in extension
    ensures stem != "" ==> Stem(stem + "." + extension) == stem
    ensures extension != "" ==> Stem(extension) == extension && Stem("." + extension) == "." + extension
  {
    LastDotIs(stem + "." + extension, |stem|);
    LastDotIs("." + extension, 0);
    assert (stem + "." + extension)[..|stem|] == stem;
    hide LastDot;
    assert LastDot(extension) == |extension|;
  }

  lemma DottedHasFileName(stem: string, extension: string)
    requires '.' !in extension
    ensures stem != "" && stem + "." + extension != ".." ==> HasFileName(Path("", stem + "." + extension))
    ensures extension != "" ==> HasFileName(Path("", extension)) && HasFileName(Path("", "." + extension))
  {
    assert extension != "" ==> extension[0] in extension && ("." + extension)[1] == extension[0];
    assert |stem + "." + extension| == |stem| + 1 + |extension|;
  }

  /** The temporary, name by name: what stands behind the last dot gives way to `tmp`; a name without
      a dot, or with its only dot in front, keeps all of itself; what is no file name stays. */
  lemma TemporaryInWords(directory: string, stem: string, extension: string)
    requires '.' !in extension
    ensures stem != "" && stem + "." + extension != ".." ==>
              TemporaryPath(Path(directory, stem + "." + extension)) == Path(directory, stem + ".tmp")
    ensures extension != "" ==>
              && TemporaryPath(Path(directory, extension)) == Path(directory, extension + ".tmp")
              && TemporaryPath(Path(directory, "." + extension)) == Path(directory, "." + extension + ".tmp")
    ensures forall name :: name in {"", ".", ".."} ==> TemporaryPath(Path(directory, name)) == Path(directory, name)
  {
    StemInWords(stem, extension);
    DottedHasFileName(stem, extension);
    hide Stem;
  }
}
