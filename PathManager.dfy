/** Where the application keeps its files: a user-chosen base directory, or a
    per-collection directory under the user's application-data folder. */
module Paths {
  import opened Wrappers
  import opened TextHelpers

  /** The collection name that stands for "no collection". */
  const SHOWS_DEFAULT_COLLECTION := "2.1"

  /** `\` and `/`, the directory separators of Windows paths. */
  predicate IsDirectorySeparator(c: char) {
    c == '\\' || c == '/'
  }

  /** A path starting at a separator, or with a drive letter before a colon. */
  predicate IsPathRooted(p: string) {
    (|p| >= 1 && IsDirectorySeparator(p[0])) || (|p| >= 2 && p[1] == ':')
  }

  /** `Path.Combine(path1, path2)` on Windows: an empty part yields the other, a
      rooted second part wins, otherwise the parts are joined by one `\` unless
      the first already ends in a separator or a volume colon. */
  function Combine(path1: string, path2: string): string {
    if path2 == [] then path1
    else if path1 == [] then path2
    else if IsPathRooted(path2) then path2
    else
      var ch := path1[|path1| - 1];
      if IsDirectorySeparator(ch) || ch == ':' then path1 + path2 else path1 + "\\" + path2
  }

  /** Combining a non-empty, relative name onto a non-empty base keeps the base
      as a prefix and the name as a suffix, with at most one separator between. */
  lemma CombineJoins(base: string, name: string)
    requires base != [] && name != [] && !IsPathRooted(name)
    ensures base <= Combine(base, name)
    ensures Combine(base, name) == base + name || Combine(base, name) == base + "\\" + name
    ensures Combine(base, name)[|Combine(base, name)| - |name|..] == name
  {
  }

  /** `Path.Combine(appData, "TVRename", "TVRename", last)`. */
  function AppDataPath(appData: string, last: string): string {
    Combine(Combine(Combine(appData, "TVRename"), "TVRename"), last)
  }

  /** The `ShowCollection` setter's rule: the default name is stored as "". */
  function NormalisedCollection(value: string): (r: string)
    ensures r != SHOWS_DEFAULT_COLLECTION
    ensures value != SHOWS_DEFAULT_COLLECTION ==> r == value
    ensures value == SHOWS_DEFAULT_COLLECTION ==> r == ""
  {
    if value != SHOWS_DEFAULT_COLLECTION then value else ""
  }

  /** The directory `GetFileInfo` uses: the user-defined base if it has a value,
      else the collection's directory under application data ("2.1" when no
      collection is set). */
  function FileBase(userDefinedBasePath: Option<string>, collection: string, appData: string): string {
    if HasValue(userDefinedBasePath) then userDefinedBasePath.value
    else AppDataPath(appData, if collection != "" then collection else SHOWS_DEFAULT_COLLECTION)
  }

  /** The directory `GetRootFileInfo` uses: as `FileBase`, but the last segment is
      "" when a collection is set. */
  function RootBase(userDefinedBasePath: Option<string>, collection: string, appData: string): string {
    if HasValue(userDefinedBasePath) then userDefinedBasePath.value
    else AppDataPath(appData, if collection != "" then "" else SHOWS_DEFAULT_COLLECTION)
  }

  /** A collection's directory sits inside the root directory; with no collection
      (or a user-defined base) the two directories coincide. */
  lemma CollectionInsideRoot(userDefinedBasePath: Option<string>, collection: string, appData: string)
    ensures FileBase(userDefinedBasePath, collection, appData)
            == if HasValue(userDefinedBasePath) || collection == "" then RootBase(userDefinedBasePath, collection, appData)
               else Combine(RootBase(userDefinedBasePath, collection, appData), collection)
  {
  }

  /** Under an application-data folder written without a trailing separator, the
      root is `<appData>\TVRename\TVRename` and a collection's directory is one
      level below it. */
  lemma AppDataLayout(appData: string, collection: string)
    requires appData != [] && !IsDirectorySeparator(appData[|appData| - 1]) && appData[|appData| - 1] != ':'
    requires collection != "" && !IsPathRooted(collection)
    ensures RootBase(None, collection, appData) == appData + "\\TVRename\\TVRename"
    ensures FileBase(None, collection, appData) == appData + "\\TVRename\\TVRename\\" + collection
    ensures FileBase(None, "", appData) == appData + "\\TVRename\\TVRename\\2.1"
  {
    assert Combine(appData, "TVRename") == appData + "\\TVRename";
    assert Combine(appData + "\\TVRename", "TVRename") == appData + "\\TVRename\\TVRename";
    assert !IsPathRooted(SHOWS_DEFAULT_COLLECTION);
  }

  /** The argument errors `SetUserDefinedBasePath` throws. */
  datatype PathError = ArgumentNull(paramName: string) | Argument(message: string)

  /** The argument checks of `SetUserDefinedBasePath`: a null or empty path, then a
      path naming an existing file, are rejected. */
  function CheckBasePath(path: Option<string>, fileExists: string -> bool): (r: Outcome<PathError>)
    ensures r.Pass? <==> path.Some? && path.value != "" && !fileExists(path.value)
    ensures (path.None? || path.value == "") <==> r == Fail(ArgumentNull("path"))
    ensures path.Some? && path.value != "" && fileExists(path.value) <==> r == Fail(Argument("path"))
  {
    if path.None? || path.value == "" then Fail(ArgumentNull("path"))
    else if fileExists(path.value) then Fail(Argument("path"))
    else Pass
  }

  /** The process-wide path settings (the static fields of `PathManager`). */
  class PathManager {
    var showsCollection: string
    var userDefinedBasePath: Option<string>

    constructor ()
      ensures showsCollection == "" && userDefinedBasePath == None
    {
      showsCollection := "";
      userDefinedBasePath := None;
    }

    /** The `ShowCollection` getter. */
    function ShowCollection(): (r: string)
      reads this
      ensures r == showsCollection
    {
      showsCollection
    }

    /** The `ShowCollection` setter. */
    method SetShowCollection(value: string)
      modifies this
      ensures showsCollection == NormalisedCollection(value)
      ensures ShowCollection() != SHOWS_DEFAULT_COLLECTION
      ensures userDefinedBasePath == old(userDefinedBasePath)
    {
      if value != SHOWS_DEFAULT_COLLECTION {
        showsCollection := value;
      } else {
        showsCollection := "";
      }
    }

    /** Use `path` (made absolute by `getFullPath`) as the base directory, after
        the argument checks; a rejected path changes nothing. */
    method SetUserDefinedBasePath(path: Option<string>, fileExists: string -> bool, getFullPath: string -> string)
      returns (outcome: Outcome<PathError>)
      modifies this
      ensures outcome == CheckBasePath(path, fileExists)
      ensures outcome.Pass? ==> userDefinedBasePath == Some(getFullPath(path.value))
      ensures outcome.Fail? ==> userDefinedBasePath == old(userDefinedBasePath)
      ensures showsCollection == old(showsCollection)
    {
      if path.None? || path.value == "" {
        return Fail(ArgumentNull("path"));
      }
      if fileExists(path.value) {
        return Fail(Argument("path"));
      }
      var full := getFullPath(path.value);
      userDefinedBasePath := Some(full);
      outcome := Pass;
    }

    /** The file `file` in the settings directory. */
    function GetFileInfo(file: string, appData: string): (r: string)
      reads this
      ensures HasValue(userDefinedBasePath) ==> r == Combine(userDefinedBasePath.value, file)
      ensures !HasValue(userDefinedBasePath) && showsCollection != "" ==>
        r == Combine(AppDataPath(appData, showsCollection), file)
      ensures !HasValue(userDefinedBasePath) && showsCollection == "" ==>
        r == Combine(AppDataPath(appData, SHOWS_DEFAULT_COLLECTION), file)
    {
      Combine(FileBase(userDefinedBasePath, showsCollection, appData), file)
    }

    /** The file `file` in the root settings directory. */
    function GetRootFileInfo(file: string, appData: string): (r: string)
      reads this
      ensures HasValue(userDefinedBasePath) ==> r == Combine(userDefinedBasePath.value, file)
      ensures !HasValue(userDefinedBasePath) && showsCollection != "" ==>
        r == Combine(Combine(Combine(appData, "TVRename"), "TVRename"), file)
      ensures !HasValue(userDefinedBasePath) && showsCollection == "" ==>
        r == Combine(AppDataPath(appData, SHOWS_DEFAULT_COLLECTION), file)
    {
      Combine(RootBase(userDefinedBasePath, showsCollection, appData), file)
    }
  }
}
