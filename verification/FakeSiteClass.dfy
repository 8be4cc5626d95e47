/** The fake's mutable site object: two dictionaries its routes change in place. */
module FakeSiteClass {
  import opened Common
  import opened Paths
  import opened Model
  import opened FakeBackend

  class SiteObject {
    var files: map<Path, Bytes>
    var folders: set<Path>

    function View(): FakeBackend.View
      reads this
    {
      FakeBackend.View(files, folders)
    }

    constructor ()
      ensures View() == EMPTY
    {
      files, folders := map[], {};
    }

    /** Climb to the root or to the first folder already there. Path length makes it end. */
    method AddFoldersFor(path: Path)
      requires WellFormed(View())
      modifies this`folders
      ensures folders == old(folders) + Ancestors(path)
    {
      ghost var v := View();
      var parent := Parent(path);
      while parent != "" && parent !in folders
        invariant v.folders <= folders
        invariant forall p :: p in folders && p !in v.folders ==> |p| > |parent|
        invariant folders + (if parent == "" then {} else {parent} + Ancestors(parent)) == v.folders + Ancestors(path)
        decreases |parent|
      {
        folders := folders + {parent};
        parent := Parent(parent);
      }
      if parent != "" { AncestorsOfStored(v, parent); }
    }

    /** Whether the write replaces a file; the parents are climbed to the root. */
    method CheckWriteTarget(path: Path, overwrite: bool) returns (r: Result<bool, Answer>)
      ensures r == FakeBackend.CheckWriteTarget(View(), path, overwrite)
    {
      if path in folders { return Err(NOT_A_FILE); }
      var parent := Parent(path);
      while parent != ""
        invariant Ancestors(path) !! files.Keys
                  <==> (if parent == "" then true else ({parent} + Ancestors(parent)) !! files.Keys)
        decreases |parent|
      {
        if parent in files { return Err(NOT_A_FOLDER); }
        parent := Parent(parent);
      }
      if path in files {
        r := if overwrite then Ok(true) else Err(FILE_EXISTS);
      } else {
        r := Ok(false);
      }
    }

    method Upload(path: Path, body: Bytes, overwrite: bool) returns (answer: Answer)
      requires WellFormed(View()) && path != ""
      modifies this
      ensures (View(), answer) == UploadTo(old(View()), path, body, overwrite)
      ensures WellFormed(View())
    {
      UploadKeepsWellFormed(View(), path, body, overwrite);
      AddFoldersForAddsAncestors(View(), path);
      var checked := CheckWriteTarget(path, overwrite);
      match checked
      case Err(e) => answer := e;
      case Ok(replaced) =>
        AddFoldersFor(path);
        files := files[path := body];
        answer := UploadedAnswer(path, body, replaced);
    }

    method DeleteFile(path: Path) returns (answer: Answer)
      requires WellFormed(View())
      modifies this`files
      ensures (View(), answer) == DeleteFileFrom(old(View()), path) && WellFormed(View())
    {
      DeletesKeepWellFormed(View(), path, false);
      if path in folders { return NOT_A_FILE; }
      if path !in files { return NOT_FOUND; }
      files := files - {path};
      answer := NoContent;
    }

    /** The descendants go one by one, files before folders. */
    method DeleteFolder(path: Path, recursive: bool) returns (answer: Answer)
      requires WellFormed(View())
      modifies this
      ensures (View(), answer) == DeleteFolderFrom(old(View()), path, recursive) && WellFormed(View())
    {
      DeletesKeepWellFormed(View(), path, recursive);
      ghost var v := View();
      if path in files { return NOT_A_FOLDER; }
      if path !in folders { return NOT_FOUND; }
      var subfolders, below := FoldersBelow(View(), path), FilesBelow(View(), path);
      if (subfolders != {} || below != {}) && !recursive { return FOLDER_NOT_EMPTY; }
      while below != {}
        invariant below <= FilesBelow(v, path) && folders == v.folders
        invariant files == v.files - (FilesBelow(v, path) - below)
      {
        var p :| p in below;
        files := files - {p};
        below := below - {p};
      }
      while subfolders != {}
        invariant subfolders <= FoldersBelow(v, path) && files == v.files - FilesBelow(v, path)
        invariant folders == v.folders - (FoldersBelow(v, path) - subfolders)
      {
        var p :| p in subfolders;
        folders := folders - {p};
        subfolders := subfolders - {p};
      }
      folders := folders - {path};
      answer := NoContent;
      assert folders == v.folders - FoldersBelow(v, path) - {path};
      assert files == v.files - FilesBelow(v, path);
    }
  }
}
