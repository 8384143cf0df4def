/** File names and paths, as far as the harness looks into them. */
module Paths {

  /** A path below the app directory, part by part. */
  type Path = seq<string>

  /** The files of an app directory. */
  type Files = map<Path, string>

  /** The position of the last dot, -1 when there is none. */
  function LastDot(name: string): (i: int)
    ensures -1 <= i < |name|
    ensures i >= 0 ==> name[i] == '.'
    ensures forall k :: i < k < |name| ==> name[k] != '.'
  {
    if name == "" then -1
    else if name[|name| - 1] == '.' then |name| - 1
    else LastDot(name[..|name| - 1])
  }

  predicate HasSuffix(name: string) {
    0 < LastDot(name) < |name| - 1
  }

  /** `PurePath.suffix`. */
  function Suffix(name: string): string {
    if HasSuffix(name) then name[LastDot(name)..] else ""
  }

  /** A name without its suffix; `with_suffix(s)` is `Stem(name) + s`. */
  function Stem(name: string): string {
    if HasSuffix(name) then name[..LastDot(name)] else name
  }

  /** A name in front of a dot and an extension without one: the suffix is the dot and the
      extension, and taking it off leaves the name. */
  lemma {:induction false} SuffixOfDotted(name: string, ext: string)
    requires name != "" && ext != "" && '.' !in ext
    ensures Suffix(name + "." + ext) == "." + ext && Stem(name + "." + ext) == name
  {
    var whole := name + "." + ext;
    forall k | |name| < k < |whole| ensures whole[k] != '.' {
      assert whole[k] == ext[k - |name| - 1] && ext[k - |name| - 1] in ext;
    }
    assert whole[|name|] == '.' && LastDot(whole) == |name|;
    assert whole[|name|..] == "." + ext && whole[..|name|] == name;
  }

  /** A name without a dot, or with its last one at either end, has no suffix. */
  lemma {:induction false} NoSuffix(name: string, ext: string)
    requires '.' !in ext
    ensures Suffix(ext) == "" && Stem(ext) == ext
    ensures Suffix("." + ext) == "" && Stem("." + ext) == "." + ext
    ensures Suffix(name + ".") == "" && Stem(name + ".") == name + "."
  {
    assert LastDot(ext) == -1;
    var hidden, ending := "." + ext, name + ".";
    forall k | 0 < k < |hidden| ensures hidden[k] != '.' {
      assert hidden[k] == ext[k - 1] && ext[k - 1] in ext;
    }
    assert hidden[0] == '.' && LastDot(hidden) == 0;
    assert ending[|name|] == '.' && LastDot(ending) == |name|;
  }
}
