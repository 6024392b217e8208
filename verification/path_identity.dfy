/** Which component owns a source, and how a file is named within it (src/storage/ProjectConfiguration.cpp,
    src/storage/FileIdentity.cpp). Component roots are given as effective roots: normalized and absolute. */
module PathIdentity {
  import opened Text

  // ----- normal paths -----

  /** An absolute path: its names from the top, and whether a slash follows the last one. The top itself is
      written with its slash. */
  datatype Path = Path(names: seq<string>, trailing: bool)

  predicate PlainName(name: string) {
    name != "" && name != "." && name != ".." && '/' !in name
  }

  predicate WellFormed(path: Path) {
    (forall name <- path.names :: PlainName(name)) && (path.names == [] ==> path.trailing)
  }

  function Written(path: Path): string {
    Slashed(path.names) + (if path.trailing then "/" else "")
  }

  /** Dots go away and double dots take the name before them along, but never the top. */
  function Resolved(parts: seq<string>): seq<string> {
    if parts == [] then []
    else
      var before, last := Resolved(parts[..|parts| - 1]), parts[|parts| - 1];
      if last == "" || last == "." then before
      else if last == ".." then if before == [] then [] else before[..|before| - 1]
      else before + [last]
  }

  function PathOf(text: string): Path {
    var parts := Split(text);
    var last := parts[|parts| - 1];
    var names := Resolved(parts);
    Path(names, names == [] || last == "" || last == "." || last == "..")
  }

  /** lexically_normal of an absolute path. */
  function Normal(text: string): string {
    Written(PathOf(text))
  }

  predicate IsAbsolute(text: string) {
    StartsWith(text, "/")
  }

  /** The path operator /. */
  function Append(base: string, more: string): string {
    if IsAbsolute(more) then more
    else if base == "" || EndsWith(base, "/") then base + more
    else base + "/" + more
  }

  // ----- components -----

  datatype Component = Component(id: int, root: string)

  datatype FileIdentity = FileIdentity(component: int, directory: string, name: string)

  function OwnershipKey(path: string): string {
    if path != "" && path[|path| - 1] == '/' then OwnershipKey(path[..|path| - 1]) else path
  }

  predicate OwnsPath(root: string, source: string) {
    var key := OwnershipKey(root);
    source == key || StartsWith(source, key + "/")
  }

  function FullProjectFilePath(root: string, directory: string, name: string): string {
    Normal(Append(Append(root, directory), name))
  }

  /** Roots are normal absolute paths. */
  predicate NormalRoots(components: seq<Component>) {
    forall c <- components :: IsAbsolute(c.root) && Normal(c.root) == c.root
  }

  /** The part of the source below the root, when there is one: the names in between and the last one. */
  function Below(component: Component, source: string): Option<FileIdentity> {
    var root, path := PathOf(component.root), PathOf(source);
    if path.trailing || |path.names| <= |root.names| then None
    else
      var rest := path.names[|root.names|..];
      Some(FileIdentity(component.id, Join(rest[..|rest| - 1]), rest[|rest| - 1]))
  }

  /** The position chosen: an owner with a longer key than any owner before it and none longer after it. */
  ghost predicate Chosen(components: seq<Component>, source: string, owner: nat) {
    && owner < |components| && OwnsPath(components[owner].root, source)
    && (forall i | 0 <= i < |components| && OwnsPath(components[i].root, source) ::
          KeyLength(components[i]) <= KeyLength(components[owner]))
    && (forall i | 0 <= i < owner && OwnsPath(components[i].root, source) ::
          KeyLength(components[i]) < KeyLength(components[owner]))
  }

  function KeyLength(component: Component): nat {
    |OwnershipKey(component.root)|
  }

  method SelectOwningComponent(components: seq<Component>, source: string) returns (owner: Option<nat>)
    ensures owner.None? <==> forall c <- components :: !OwnsPath(c.root, source)
    ensures owner.Some? ==> Chosen(components, source, owner.value)
  {
    hide OwnsPath, KeyLength;
    owner := None;
    for index := 0 to |components|
      invariant owner.None? <==> forall c <- components[..index] :: !OwnsPath(c.root, source)
      invariant owner.Some? ==> Chosen(components[..index], source, owner.value)
    {
      assert components[..index + 1] == components[..index] + [components[index]];
      if OwnsPath(components[index].root, source) &&
         (owner.None? || KeyLength(components[index]) > KeyLength(components[owner.value])) {
        owner := Some(index);
      }
    }
    assert components[..|components|] == components;
  }

  /** lexically_relative of a source to a root that owns it. */
  function LexicallyRelative(source: string, root: string): string
    requires OwnsPath(root, source)
  {
    TextBelow(source, OwnershipKey(root))
  }

  function TextBelow(source: string, key: string): string
    requires source == key || StartsWith(source, key + "/")
  {
    if source == key || source == key + "/" then "." else source[|key| + 1..]
  }

  /** What follows the last slash. */
  function Filename(text: string): string {
    if text == "" || text[|text| - 1] == '/' then "" else Filename(text[..|text| - 1]) + [text[|text| - 1]]
  }

  /** What precedes the last slash. */
  function ParentPath(text: string): string {
    if text == "" then ""
    else if text[|text| - 1] == '/' then text[..|text| - 1]
    else ParentPath(text[..|text| - 1])
  }

  /** The identity of one source, or None when it lies outside every component. */
  method IdentifyFile(components: seq<Component>, source: string) returns (identity: Option<FileIdentity>)
    requires NormalRoots(components)
    ensures identity == None <==> !exists owner: nat ::
      Chosen(components, Normal(source), owner) && Below(components[owner], Normal(source)).Some?
    ensures identity.Some? ==> exists owner: nat ::
      Chosen(components, Normal(source), owner) && Below(components[owner], Normal(source)) == identity
  {
    hide OwnsPath, KeyLength, Below, Normal;
    var path := Normal(source);
    var owner := SelectOwningComponent(components, path);
    if owner.None? {
      return None;
    }
    var relative := LexicallyRelative(path, components[owner.value].root);
    var name := Filename(relative);
    if relative == "." || name == "" {
      identity := None;
    } else {
      identity := Some(FileIdentity(components[owner.value].id, ParentPath(relative), name));
    }
    NormalIsNormal(source);
    RelativeIsBelow(components[owner.value], path);
    forall other: nat | Chosen(components, path, other) ensures other == owner.value {
      OneIsChosen(components, path, owner.value, other);
    }
  }

  lemma OneMoreChar(text: string, c: char)
    requires c != '/'
    ensures Filename(text + [c]) == Filename(text) + [c] && ParentPath(text + [c]) == ParentPath(text)
  {
    assert (text + [c])[..|text|] == text;
  }

  lemma {:induction false} LastName(before: string, name: string)
    requires '/' !in name
    ensures Filename(before + "/" + name) == name && ParentPath(before + "/" + name) == before
  {
    if name == "" {
      assert (before + "/")[..|before|] == before && before + "/" + "" == before + "/";
    } else {
      hide Filename, ParentPath;
      var n := |name| - 1;
      assert name == name[..n] + [name[n]];
      LastName(before, name[..n]);
      OneMoreChar(before + "/" + name[..n], name[n]);
      assert before + "/" + name == before + "/" + name[..n] + [name[n]];
    }
  }

  lemma {:induction false} OnlyName(name: string)
    requires '/' !in name
    ensures Filename(name) == name && ParentPath(name) == ""
  {
    if name != "" {
      var n := |name| - 1;
      assert name == name[..n] + [name[n]];
      OnlyName(name[..n]);
      OneMoreChar(name[..n], name[n]);
    }
  }

  lemma JoinLast(names: seq<string>)
    requires |names| > 1
    ensures Join(names) == Join(names[..|names| - 1]) + "/" + names[|names| - 1]
  {
    var before, last := names[..|names| - 1], names[|names| - 1];
    assert names == before + [last];
    SlashedConcat(before, [last]);
    assert Slashed([last]) == "/" + (last + "") && last + "" == last;
    assert Slashed(names) == "/" + Join(names) && Slashed(before) == "/" + Join(before);
    assert ("/" + Join(names))[1..] == ("/" + (Join(before) + "/" + last))[1..];
  }

  /** The last name of joined names and what is before it. */
  lemma JoinedParts(names: seq<string>)
    requires names != [] && forall name <- names :: PlainName(name)
    ensures Filename(Join(names)) == names[|names| - 1]
    ensures ParentPath(Join(names)) == Join(names[..|names| - 1])
    ensures Join(names) != "" && Join(names) != "."
  {
    var last := names[|names| - 1];
    assert PlainName(last) && PlainName(names[0]);
    if |names| == 1 {
      assert Join(names) == last + "" == last;
      OnlyName(last);
    } else {
      JoinLast(names);
      LastName(Join(names[..|names| - 1]), last);
      assert |Join(names)| > 1;
    }
  }

  lemma TextAfter(key: string, more: string)
    requires more != ""
    ensures StartsWith(key + "/" + more, key + "/") && TextBelow(key + "/" + more, key) == more
  {
    var source := key + "/" + more;
    assert source[..|key| + 1] == key + "/" && source[|key| + 1..] == more;
  }

  lemma TextOfNames(key: string, names: seq<string>, end: string)
    requires names != []
    ensures key + Slashed(names) + end == key + "/" + (Join(names) + end)
  {
    SlashedIsJoined(names);
    hide Slashed, Join;
  }

  /** `end` is the slash that may follow the last name. */
  lemma TextBelowNames(key: string, names: seq<string>, end: string)
    requires names != [] && (forall name <- names :: PlainName(name)) && (end == "" || end == "/")
    ensures var source := key + Slashed(names) + end;
      StartsWith(source, key + "/") &&
      var relative := TextBelow(source, key);
      relative != "." &&
      if end == "/" then Filename(relative) == ""
      else Filename(relative) == names[|names| - 1] != "" && ParentPath(relative) == Join(names[..|names| - 1])
  {
    JoinedParts(names);
    TextOfNames(key, names, end);
    assert PlainName(names[|names| - 1]);
    hide Slashed, Join, TextBelow, StartsWith, ParentPath;
    var more := Join(names) + end;
    TextAfter(key, more);
    SlashEnds(Join(names));
    hide Filename;
    if end == "/" {
      assert more[|more| - 1] == '/';
    } else {
      assert more == Join(names);
    }
  }

  lemma SlashedIsJoined(names: seq<string>)
    requires names != []
    ensures Slashed(names) == "/" + Join(names)
  {
  }

  lemma SlashEnds(text: string)
    ensures Filename(text + "/") == ""
  {
  }

  /** The text below the root's text holds the names below the root's names. */
  lemma RelativeNames(root: Path, path: Path)
    requires WellFormed(path) && root.names <= path.names
    ensures var source, key, rest := Written(path), Slashed(root.names), path.names[|root.names|..];
      (source == key || StartsWith(source, key + "/")) &&
      var relative := TextBelow(source, key);
      if path.trailing || rest == [] then relative == "." || Filename(relative) == ""
      else relative != "." && Filename(relative) == rest[|rest| - 1] != "" &&
           ParentPath(relative) == Join(rest[..|rest| - 1])
  {
    var key, rest := Slashed(root.names), path.names[|root.names|..];
    assert path.names == root.names + rest;
    SlashedConcat(root.names, rest);
    var end := if path.trailing then "/" else "";
    hide Filename, ParentPath, Slashed, Join, PlainName, StartsWith, TextBelow;
    assert Written(path) == key + Slashed(rest) + end;
    if rest == [] {
      NothingBelow(key, end);
    } else {
      assert forall name <- rest :: name in path.names;
      TextBelowNames(key, rest, end);
    }
  }

  /** The text operations give the identity below the root. */
  lemma RelativeIsBelow(component: Component, source: string)
    requires Normal(component.root) == component.root && Normal(source) == source && OwnsPath(component.root, source)
    ensures var relative := LexicallyRelative(source, component.root);
      Below(component, source) ==
        if relative == "." || Filename(relative) == "" then None
        else Some(FileIdentity(component.id, ParentPath(relative), Filename(relative)))
  {
    NormalIsNormal(component.root);
    NormalIsNormal(source);
    OwnsByNames(component, source);
    KeyOfRoot(PathOf(component.root));
    RelativeNames(PathOf(component.root), PathOf(source));
    hide PathOf, OwnsPath, OwnershipKey, Filename, ParentPath, Slashed, Join, PlainName, StartsWith, TextBelow,
      WellFormed, Written;
  }

  lemma NothingBelow(key: string, end: string)
    requires end == "" || end == "/"
    ensures key + Slashed([]) + end == key + end
    ensures key + end == key || StartsWith(key + end, key + "/")
    ensures TextBelow(key + end, key) == "."
  {
    assert key + "" == key;
  }

  lemma OneIsChosen(components: seq<Component>, source: string, a: nat, b: nat)
    requires Chosen(components, source, a) && Chosen(components, source, b)
    ensures a == b
  {
    hide OwnsPath, KeyLength;
  }

  ghost predicate Identified(components: seq<Component>, source: string, identity: FileIdentity) {
    exists owner: nat ::
      Chosen(components, Normal(source), owner) && Below(components[owner], Normal(source)) == Some(identity)
  }

  lemma IdentifiedOnce(components: seq<Component>, source: string, a: FileIdentity, b: FileIdentity)
    requires Identified(components, source, a) && Identified(components, source, b)
    ensures a == b
  {
    hide OwnsPath, KeyLength, Below, Normal;
    var path := Normal(source);
    var i: nat :| Chosen(components, path, i) && Below(components[i], path) == Some(a);
    var j: nat :| Chosen(components, path, j) && Below(components[j], path) == Some(b);
    OneIsChosen(components, path, i, j);
  }

  ghost function IdentityOf(components: seq<Component>, source: string): Option<FileIdentity> {
    if identity: FileIdentity :| Identified(components, source, identity) then Some(identity) else None
  }

  /** The identities of the sources that have one, in order. */
  ghost function Identities(components: seq<Component>, sources: seq<string>): seq<FileIdentity> {
    if sources == [] then []
    else
      var before := Identities(components, sources[..|sources| - 1]);
      match IdentityOf(components, sources[|sources| - 1])
      case Some(identity) => before + [identity]
      case None => before
  }

  /** Sources outside every component are skipped. */
  method IdentifyFiles(components: seq<Component>, sources: seq<string>) returns (files: seq<FileIdentity>)
    requires NormalRoots(components)
    ensures files == Identities(components, sources)
  {
    hide Chosen, Below, Normal;
    files := [];
    for i := 0 to |sources|
      invariant files == Identities(components, sources[..i])
    {
      assert sources[..i + 1][..i] == sources[..i];
      var identity := IdentifyFile(components, sources[i]);
      if identity.Some? {
        assert Identified(components, sources[i], identity.value);
        forall other | Identified(components, sources[i], other) ensures other == identity.value {
          IdentifiedOnce(components, sources[i], other, identity.value);
        }
        files := files + [identity.value];
      } else {
        forall other ensures !Identified(components, sources[i], other) {
        }
      }
    }
    assert sources[..|sources|] == sources;
  }

  ghost predicate AllDiffer(files: seq<FileIdentity>) {
    forall i, j | 0 <= i < j < |files| :: files[i] != files[j]
  }

  lemma OneMoreDiffers(files: seq<FileIdentity>, more: FileIdentity)
    requires AllDiffer(files) && more !in files
    ensures AllDiffer(files + [more])
  {
  }

  /** Files of different sources stay apart in the list, and each is the identity of one of them. */
  lemma {:induction false} IdentitiesDiffer(components: seq<Component>, sources: seq<string>)
    requires NormalRoots(components) && forall source <- sources :: Normal(source) == source
    requires forall i, j | 0 <= i < j < |components| :: components[i].id != components[j].id
    requires forall i, j | 0 <= i < j < |sources| :: sources[i] != sources[j]
    ensures AllDiffer(Identities(components, sources))
    ensures forall file <- Identities(components, sources) ::
      exists source <- sources :: IdentityOf(components, source) == Some(file)
  {
    hide Normal, NormalRoots, Identified, IdentityOf, AllDiffer;
    if sources == [] {
      NoneDiffer();
    } else {
      var n := |sources| - 1;
      var last := sources[n];
      assert sources == sources[..n] + [last] && last in sources;
      assert forall source <- sources[..n] :: source in sources;
      IdentitiesDiffer(components, sources[..n]);
      var before := Identities(components, sources[..n]);
      match IdentityOf(components, last)
      case None =>
      case Some(identity) =>
        if identity in before {
          var source :| source in sources[..n] && IdentityOf(components, source) == Some(identity);
          IsIdentified(components, source, identity);
          IsIdentified(components, last, identity);
          IdentitiesAreDistinct(components, source, last, identity);
        }
        OneMoreDiffers(before, identity);
    }
  }

  lemma IsIdentified(components: seq<Component>, source: string, identity: FileIdentity)
    requires IdentityOf(components, source) == Some(identity)
    ensures Identified(components, source, identity)
  {
    hide Identified;
  }

  lemma NoneDiffer()
    ensures AllDiffer([])
  {
  }

  // ----- dots and absolute parts -----

  /** A double dot takes the name before it back, and at the top does nothing; a dot and a doubled slash do nothing
      anywhere. */
  lemma DoubleDotTakesBack(before: seq<string>, name: string)
    requires PlainName(name)
    ensures Resolved(before + [name, ".."]) == Resolved(before)
    ensures Resolved(before) == [] ==> Resolved(before + [".."]) == []
    ensures Resolved(before + ["."]) == Resolved(before) == Resolved(before + [""])
  {
    assert before + [name, ".."] == before + [name] + [".."];
    OnePart(before, name);
    OnePart(before + [name], "..");
    OnePart(before, "..");
    OnePart(before, ".");
    OnePart(before, "");
  }

  lemma OnePart(before: seq<string>, part: string)
    ensures Resolved(before + [part]) ==
      var names := Resolved(before);
      if part == "" || part == "." then names
      else if part == ".." then if names == [] then [] else names[..|names| - 1]
      else names + [part]
  {
    assert (before + [part])[..|before|] == before;
  }

  /** An absolute directory or name stands for itself, whatever precedes it. */
  lemma AbsoluteStands(root: string, directory: string, name: string)
    ensures IsAbsolute(name) ==> FullProjectFilePath(root, directory, name) == Normal(name)
    ensures IsAbsolute(directory) ==> FullProjectFilePath(root, directory, name) == Normal(Append(directory, name))
  {
    hide Normal;
  }

  // ----- normal paths are read back -----

  lemma {:induction false} ResolvedNames(before: seq<string>, names: seq<string>)
    requires forall name <- names :: PlainName(name)
    ensures Resolved(before + names) == Resolved(before) + names
  {
    if names == [] {
      assert before + names == before;
    } else {
      var n := |names| - 1;
      assert (before + names)[..|before| + n] == before + names[..n];
      assert names[n] in names;
      ResolvedNames(before, names[..n]);
      assert names == names[..n] + [names[n]];
    }
  }

  lemma {:induction false} ResolvedPlain(parts: seq<string>)
    requires forall part <- parts :: '/' !in part
    ensures forall name <- Resolved(parts) :: PlainName(name)
  {
    if parts != [] {
      var n := |parts| - 1;
      assert parts[n] in parts;
      ResolvedPlain(parts[..n]);
    }
  }

  lemma JoinFromTop(keys: seq<string>)
    ensures Join([""] + keys) == Slashed(keys) && Slashed([""]) == "/" && Slashed([]) == ""
  {
    assert ([""] + keys)[1..] == keys;
    assert "" + Slashed(keys) == Slashed(keys);
  }

  /** The pieces of a written path. */
  lemma SplitWritten(path: Path)
    requires WellFormed(path)
    ensures Split(Written(path)) == [""] + path.names + (if path.trailing then [""] else [])
    ensures IsAbsolute(Written(path))
  {
    var end := if path.trailing then [""] else [];
    PathIsAbsolute(path);
    hide Split, Slashed, Join;
    JoinFromTop(path.names + end);
    SlashedConcat(path.names, end);
    SplitJoin([""] + (path.names + end));
    assert [""] + (path.names + end) == [""] + path.names + end;
  }

  lemma PathIsAbsolute(path: Path)
    requires WellFormed(path)
    ensures IsAbsolute(Written(path))
  {
    if path.names != [] {
      assert Slashed(path.names) == "/" + (path.names[0] + Slashed(path.names[1..]));
    }
  }

  /** Writing and reading a normal path are inverse. */
  lemma PathOfWritten(path: Path)
    requires WellFormed(path)
    ensures PathOf(Written(path)) == path && Normal(Written(path)) == Written(path)
  {
    var parts := Split(Written(path));
    SplitWritten(path);
    ResolvedNames([""], path.names);
    assert Resolved([""]) == [] by {
      assert [""][..0] == [];
    }
    assert [] + path.names == path.names;
    if path.trailing {
      assert parts[..|parts| - 1] == [""] + path.names;
    } else {
      assert parts == [""] + path.names;
      assert parts[|parts| - 1] == path.names[|path.names| - 1];
      assert PlainName(path.names[|path.names| - 1]);
    }
  }

  /** Normalizing an absolute path gives a normal path, and doing it again changes nothing. */
  lemma NormalIsNormal(text: string)
    ensures WellFormed(PathOf(text)) && Normal(Normal(text)) == Normal(text) && PathOf(Normal(text)) == PathOf(text)
  {
    JoinSplit(text);
    ResolvedPlain(Split(text));
    PathOfWritten(PathOf(text));
  }

  // ----- ownership is by whole names -----

  lemma {:induction false} SlashedEnd(names: seq<string>)
    requires names != [] && forall name <- names :: PlainName(name)
    ensures var text := Slashed(names); text != "" && text[|text| - 1] != '/' && text[0] == '/'
  {
    var last := names[|names| - 1];
    assert PlainName(last);
    assert names == names[..|names| - 1] + [last];
    SlashedConcat(names[..|names| - 1], [last]);
    assert Slashed([last]) == "/" + (last + "");
    assert last[|last| - 1] in last;
    assert names[0] in names;
  }

  lemma KeyOfPlain(text: string)
    ensures OwnershipKey(text + "/") == OwnershipKey(text)
    ensures text == "" || text[|text| - 1] != '/' ==> OwnershipKey(text) == text
  {
    assert (text + "/")[..|text|] == text;
  }

  lemma KeyOfRoot(path: Path)
    requires WellFormed(path)
    ensures OwnershipKey(Written(path)) == Slashed(path.names)
  {
    hide OwnershipKey;
    var text := Slashed(path.names);
    KeyOfPlain(text);
    if path.names != [] {
      SlashedEnd(path.names);
    }
    assert text + "" == text;
  }

  /** The text comparison means that the names of the root are the first names of the source: `/a/b` does not own
      `/a/bc`. */
  lemma OwnsExactlyItsNames(root: Path, source: Path)
    requires WellFormed(root) && WellFormed(source)
    ensures OwnsPath(Written(root), Written(source)) <==> root.names <= source.names
  {
    KeyOfRoot(root);
    var key, text := Slashed(root.names), Written(source);
    if root.names <= source.names {
      NamesOwn(root, source);
    } else if text == key {
      SplitWritten(source);
      assert root.names != [];
      SplitWritten(Path(root.names, false));
      assert key + "" == key;
      EqualPieces(root, source);
    } else if StartsWith(text, key + "/") {
      var tail := text[|key| + 1..];
      assert text == key + "/" + tail;
      SplitAtSlash(key, tail);
      SplitWritten(source);
      KeyPieces(root);
      PrefixPieces(root, source, Split(tail));
    }
  }

  lemma KeyPieces(root: Path)
    requires WellFormed(root)
    ensures Split(Slashed(root.names)) == [""] + root.names
  {
    if root.names == [] {
      assert Slashed(root.names) == "";
    } else {
      SplitWritten(Path(root.names, false));
      assert Slashed(root.names) + "" == Slashed(root.names);
      assert [""] + root.names + [] == [""] + root.names;
    }
  }

  lemma NamesOwn(root: Path, source: Path)
    requires WellFormed(root) && WellFormed(source) && root.names <= source.names
    ensures var key, text := Slashed(root.names), Written(source); text == key || StartsWith(text, key + "/")
  {
    var key, text := Slashed(root.names), Written(source);
    var rest := source.names[|root.names|..];
    assert source.names == root.names + rest;
    SlashedConcat(root.names, rest);
    if rest == [] {
      assert text == key + (if source.trailing then "/" else "");
      assert key + "" == key;
    } else {
      assert Slashed(rest) == "/" + (rest[0] + Slashed(rest[1..]));
      assert text == key + "/" + (rest[0] + Slashed(rest[1..]) + (if source.trailing then "/" else ""));
      assert text[..|key| + 1] == key + "/";
    }
  }

  lemma EqualPieces(root: Path, source: Path)
    requires WellFormed(root) && WellFormed(source)
    requires [""] + root.names + [] == [""] + source.names + (if source.trailing then [""] else [])
    ensures root.names <= source.names
  {
    PrefixPieces(root, source, []);
  }

  lemma PrefixPieces(root: Path, source: Path, rest: seq<string>)
    requires WellFormed(root)
    requires [""] + root.names + rest == [""] + source.names + (if source.trailing then [""] else [])
    ensures root.names <= source.names
  {
    var left, right := [""] + root.names + rest, [""] + source.names + (if source.trailing then [""] else []);
    forall k | 0 <= k < |right| - 1 ensures right[k + 1] == if k < |source.names| then source.names[k] else "" {
    }
    forall i | 0 <= i < |root.names| ensures i < |source.names| && root.names[i] == source.names[i] {
      assert left[i + 1] == root.names[i] && PlainName(root.names[i]) && right[i + 1] != "";
    }
    if root.names != [] {
      assert root.names[|root.names| - 1] == source.names[|root.names| - 1];
    }
    assert root.names == source.names[..|root.names|];
  }

  // ----- the owner is the deepest one -----

  lemma DeeperIsLonger(short: seq<string>, long: seq<string>)
    requires short <= long
    ensures |Slashed(short)| <= |Slashed(long)|
    ensures |short| < |long| ==> |Slashed(short)| < |Slashed(long)|
  {
    assert long == short + long[|short|..];
    SlashedConcat(short, long[|short|..]);
  }

  ghost predicate Owner(components: seq<Component>, source: string, i: nat) {
    i < |components| && PathOf(components[i].root).names <= PathOf(source).names
  }

  /** Text lengths compare owners the way their numbers of names do: the chosen component is the deepest owner,
      and the first of those. */
  lemma ChosenIsDeepest(components: seq<Component>, source: string, owner: nat)
    requires NormalRoots(components) && Normal(source) == source
    ensures Chosen(components, source, owner) <==>
      Owner(components, source, owner) &&
      (forall i: nat | Owner(components, source, i) ::
         |PathOf(components[i].root).names| <= |PathOf(components[owner].root).names|) &&
      (forall i: nat | Owner(components, source, i) && i < owner ::
         |PathOf(components[i].root).names| < |PathOf(components[owner].root).names|)
  {
    forall i | 0 <= i < |components| ensures OwnsPath(components[i].root, source) <==> Owner(components, source, i) {
      OwnsByNames(components[i], source);
    }
    forall i: nat, j: nat | Owner(components, source, i) && Owner(components, source, j)
      ensures KeyLength(components[i]) <= KeyLength(components[j]) <==>
              |PathOf(components[i].root).names| <= |PathOf(components[j].root).names|
    {
      KeyLengths(components[i], components[j], source);
    }
    hide OwnsPath, KeyLength, PathOf;
  }

  lemma OwnsByNames(component: Component, source: string)
    requires Normal(component.root) == component.root && Normal(source) == source
    ensures OwnsPath(component.root, source) <==> PathOf(component.root).names <= PathOf(source).names
  {
    NormalIsNormal(component.root);
    NormalIsNormal(source);
    OwnsExactlyItsNames(PathOf(component.root), PathOf(source));
  }

  lemma KeyLengths(a: Component, b: Component, source: string)
    requires Normal(a.root) == a.root && Normal(b.root) == b.root
    requires PathOf(a.root).names <= PathOf(source).names && PathOf(b.root).names <= PathOf(source).names
    ensures KeyLength(a) <= KeyLength(b) <==> |PathOf(a.root).names| <= |PathOf(b.root).names|
  {
    NormalIsNormal(a.root);
    NormalIsNormal(b.root);
    KeyOfRoot(PathOf(a.root));
    KeyOfRoot(PathOf(b.root));
    var left, right := PathOf(a.root).names, PathOf(b.root).names;
    if |left| <= |right| {
      assert left <= right;
      DeeperIsLonger(left, right);
    } else {
      assert right <= left;
      DeeperIsLonger(right, left);
    }
  }

  // ----- the identity leads back to the source -----

  /** Appending relative names to an absolute path, whether or not it ends in a slash. */
  lemma AppendNames(base: Path, names: seq<string>)
    requires WellFormed(base) && names != [] && forall name <- names :: PlainName(name)
    ensures Append(Written(base), Join(names)) == Written(Path(base.names + names, false))
    ensures WellFormed(Path(base.names + names, false))
  {
    var text, more := Written(base), Join(names);
    assert names[0] in names;
    assert more[0] == names[0][0] && names[0][0] in names[0];
    assert Slashed(names) == "/" + more;
    SlashedConcat(base.names, names);
    if base.trailing {
      assert text[|text| - 1..] == "/";
      assert text + more == Slashed(base.names) + ("/" + more);
    } else {
      SlashedEnd(base.names);
      assert text == Slashed(base.names) && text[|text| - 1..] == [text[|text| - 1]];
      assert text + "/" + more == Slashed(base.names) + ("/" + more);
    }
    assert Slashed(base.names + names) + "" == Slashed(base.names + names);
  }

  lemma AppendNothing(base: Path)
    requires WellFormed(base)
    ensures Append(Written(base), "") == Written(base.(trailing := true)) && WellFormed(base.(trailing := true))
  {
    var text := Written(base);
    if base.trailing {
      assert text[|text| - 1..] == "/";
      assert text + "" == text;
    } else {
      SlashedEnd(base.names);
      assert text == Slashed(base.names) && text[|text| - 1..] == [text[|text| - 1]];
      assert text + "/" + "" == text + "/";
    }
  }

  lemma FullPath(root: Path, directory: seq<string>, name: string)
    requires WellFormed(root) && PlainName(name) && forall part <- directory :: PlainName(part)
    ensures FullProjectFilePath(Written(root), Join(directory), name) ==
      Written(Path(root.names + directory + [name], false))
  {
    hide Append, Normal, Written, PlainName;
    var whole := Path(root.names + directory + [name], false);
    assert Join([name]) == name + "" == name;
    if directory == [] {
      AppendNothing(root);
      AppendNames(root.(trailing := true), [name]);
      assert root.names + [name] == whole.names;
    } else {
      AppendNames(root, directory);
      AppendNames(Path(root.names + directory, false), [name]);
    }
    PathOfWritten(whole);
  }

  /** The full path of an identity is the source it was made from. */
  lemma IdentityLeadsBack(component: Component, source: string)
    requires Normal(component.root) == component.root && Normal(source) == source
    requires PathOf(component.root).names <= PathOf(source).names
    ensures var identity := Below(component, source);
      identity.Some? ==> FullProjectFilePath(component.root, identity.value.directory, identity.value.name) == source
  {
    hide PathOf, FullProjectFilePath, PlainName;
    var root, path := PathOf(component.root), PathOf(source);
    NormalIsNormal(component.root);
    NormalIsNormal(source);
    if Below(component, source).Some? {
      var rest := path.names[|root.names|..];
      var directory, name := rest[..|rest| - 1], rest[|rest| - 1];
      assert path.names == root.names + directory + [name];
      assert name in path.names && forall part <- directory :: part in path.names;
      FullPath(root, directory, name);
    }
  }

  /** Different sources have different identities when component ids are unique. */
  lemma IdentitiesAreDistinct(components: seq<Component>, left: string, right: string, identity: FileIdentity)
    requires NormalRoots(components) && Normal(left) == left && Normal(right) == right
    requires forall i, j | 0 <= i < j < |components| :: components[i].id != components[j].id
    requires Identified(components, left, identity) && Identified(components, right, identity)
    ensures left == right
  {
    hide Normal, PathOf, OwnsPath, KeyLength, Below;
    var i: nat :| Chosen(components, left, i) && Below(components[i], left) == Some(identity);
    var j: nat :| Chosen(components, right, j) && Below(components[j], right) == Some(identity);
    BelowNamesComponent(components[i], left);
    BelowNamesComponent(components[j], right);
    assert i == j;
    OwnsByNames(components[i], left);
    OwnsByNames(components[i], right);
    IdentityLeadsBack(components[i], left);
    IdentityLeadsBack(components[i], right);
  }

  lemma BelowNamesComponent(component: Component, source: string)
    ensures Below(component, source).Some? ==> Below(component, source).value.component == component.id
  {
  }

  /** A normal source is identified exactly if a component owns it, it does not end in a slash, and it is not the
      root of its deepest owner. */
  lemma IdentifiedExactly(components: seq<Component>, source: string, owner: nat)
    requires NormalRoots(components) && Normal(source) == source && Chosen(components, source, owner)
    ensures Below(components[owner], source).Some? <==>
      !PathOf(source).trailing && PathOf(source).names != PathOf(components[owner].root).names
  {
    OwnsByNames(components[owner], source);
  }
}
