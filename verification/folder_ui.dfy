/**
 * The folder-browser client (not_bad_1/app.js): one folder is shown at a time,
 * `currentPath` says which, a folder row opens it and a Back row returns to its
 * parent. Copy/paste, delete and rename act on the entries of the folder shown.
 */
module FolderUi {
  import opened Wrappers
  import opened FileTree
  import opened Edits
  import opened Codec

  class Drive {
    /** `fileTree` */
    var tree: Node
    /** `currentPath`: the keys leading from the root to the folder shown. */
    var currentPath: Path
    /** `copiedFileObj` */
    var copied: Option<FileEntry>

    /** Sibling names are distinct, and the folder shown exists. */
    ghost predicate Valid()
      reads this
    {
      WellFormed(tree) && Lookup(tree, currentPath).Some?
    }

    /** The folder on screen. */
    function Shown(): (n: Node)
      reads this
      requires Valid()
      ensures Lookup(tree, currentPath) == Some(n)
    {
      FolderAt(tree, currentPath)
    }

    /** Page load: the tree `buildTree` makes of the server's list, shown from the root. */
    constructor (files: seq<WireRecord>)
      ensures tree == Build(files, LastRawPiece) && currentPath == [] && copied == None
      ensures Valid()
    {
      var built := BuildTree(files, LastRawPiece);
      BuildWellFormed(files, LastRawPiece);
      tree := built;
      currentPath := [];
      copied := None;
    }

    /** A click on the folder row `name` of the folder shown. */
    method OpenFolder(name: string)
      requires Valid() && HasChild(Shown().folders, name)
      modifies this
      ensures currentPath == old(currentPath) + [name]
      ensures tree == old(tree) && copied == old(copied)
      ensures Valid() && Some(Shown()) == Child(old(Shown()).folders, name)
    {
      LookupConcat(tree, currentPath, [name]);
      currentPath := currentPath + [name];
    }

    /** The Back row, drawn only below the root: shows the parent folder. */
    method GoBack()
      requires Valid() && currentPath != []
      modifies this
      ensures currentPath == old(currentPath)[..|old(currentPath)| - 1]
      ensures tree == old(tree) && copied == old(copied)
      ensures Valid() && Child(Shown().folders, old(currentPath)[|old(currentPath)| - 1]) == Some(old(Shown()))
    {
      var parent, name := currentPath[..|currentPath| - 1], currentPath[|currentPath| - 1];
      assert currentPath == parent + [name];
      LookupConcat(tree, parent, [name]);
      currentPath := parent;
    }

    /** `handleCopy`: remembers the entry; the tree is untouched. */
    method Copy(e: FileEntry)
      modifies this
      ensures copied == Some(e)
      ensures tree == old(tree) && currentPath == old(currentPath)
    {
      copied := Some(e);
    }

    /**
     * `handlePasteToFolder`: with something copied, appends an entry with the
     * copied name and the fresh id `freshId` to the child folder `folderName`.
     */
    method PasteToFolder(folderName: string, freshId: string)
      requires Valid() && HasChild(Shown().folders, folderName)
      modifies this
      ensures Lookup(old(tree), old(currentPath) + [folderName]).Some?
      ensures old(copied).None? ==> tree == old(tree)
      ensures old(copied).Some? ==>
        var target := old(currentPath) + [folderName];
        tree == WithFiles(old(tree), target, FolderAt(old(tree), target).files + [FileEntry(old(copied).value.name, freshId, None, None)])
      ensures old(copied).Some? ==>
        multiset(AllFiles(tree)) == multiset(AllFiles(old(tree))) + multiset{FileEntry(old(copied).value.name, freshId, None, None)}
      ensures UniqueIds(old(tree)) && !HasFileId(old(tree), freshId) ==> UniqueIds(tree)
      ensures currentPath == old(currentPath) && copied == old(copied)
      ensures Valid()
    {
      var target := currentPath + [folderName];
      LookupConcat(tree, currentPath, [folderName]);
      if copied.None? {
        return;
      }
      var parentOfTarget := GetNodeFromPath(tree, currentPath);
      var targetNode := Child(parentOfTarget.folders, folderName).value;
      var e := FileEntry(copied.value.name, freshId, None, None);
      AppendFresh(tree, target, e);
      WithFilesWellFormed(tree, target, targetNode.files + [e], SlashFree);
      WithFilesAt(tree, target, targetNode.files + [e], currentPath);
      tree := WithFiles(tree, target, targetNode.files + [e]);
    }

    /**
     * `handleDeleteFile`: when the folder shown holds the id and the user
     * confirms, the first entry with that id is spliced out.
     */
    method DeleteFile(fileId: string, confirmed: bool)
      requires Valid()
      modifies this
      ensures tree == if HasId(old(Shown()).files, fileId) && confirmed
        then WithFiles(old(tree), old(currentPath), RemoveFirstId(old(Shown()).files, fileId))
        else old(tree)
      ensures |AllFiles(tree)| == |AllFiles(old(tree))| - if HasId(old(Shown()).files, fileId) && confirmed then 1 else 0
      ensures UniqueIds(old(tree)) ==> UniqueIds(tree)
      ensures currentPath == old(currentPath) && copied == old(copied)
      ensures Valid()
    {
      var parentNode := GetNodeFromPath(tree, currentPath);
      var idx := IndexOfId(parentNode.files, fileId);
      if idx.None? {
        return;
      }
      if !confirmed {
        return;
      }
      var rest := parentNode.files[..idx.value] + parentNode.files[idx.value + 1..];
      RemoveFirstFiles(tree, currentPath, fileId);
      assert |multiset(AllFiles(WithFiles(tree, currentPath, rest)))| + 1 == |multiset(AllFiles(tree))|;
      WithFilesWellFormed(tree, currentPath, rest, SlashFree);
      WithFilesAt(tree, currentPath, rest, currentPath);
      tree := WithFiles(tree, currentPath, rest);
    }

    /**
     * `handleDeleteFolder`: the child `folderName` of the folder shown is
     * removed once confirmed, when it has no subfolder and no file.
     */
    method DeleteFolder(folderName: string, confirmed: bool)
      requires Valid() && HasChild(Shown().folders, folderName)
      modifies this
      ensures tree == if !HasContent(Child(old(Shown()).folders, folderName).value) && confirmed
        then DeleteFolderAt(old(tree), old(currentPath), folderName)
        else old(tree)
      ensures multiset(AllFiles(tree)) == multiset(AllFiles(old(tree)))
      ensures currentPath == old(currentPath) && copied == old(copied)
      ensures Valid()
    {
      var parentNode := GetNodeFromPath(tree, currentPath);
      var folderNode := Child(parentNode.folders, folderName).value;
      if HasContent(folderNode) || !confirmed {
        return;
      }
      LookupConcat(tree, currentPath, [folderName]);
      DeleteFolderFiles(tree, currentPath, folderName);
      DeleteFolderWellFormed(tree, currentPath, folderName, SlashFree);
      DeleteFolderOutside(tree, currentPath, folderName, currentPath);
      tree := DeleteFolderAt(tree, currentPath, folderName);
    }

    /**
     * `handleRenameFolder`: `answer` is what the prompt returned (None when
     * cancelled); an accepted name moves the subtree to the new key. The
     * guard is the corrected one, which also refuses `files`
     * (`Edits.RenameToFilesAsWritten` is the code as written).
     */
    method RenameFolder(oldName: string, answer: Option<string>)
      requires Valid() && HasChild(Shown().folders, oldName)
      modifies this
      ensures RenameRefused(old(Shown()), oldName, answer) ==> tree == old(tree)
      ensures !RenameRefused(old(Shown()), oldName, answer) ==>
        tree == RenameFolderAt(old(tree), old(currentPath), oldName, answer.value)
      ensures multiset(AllFiles(tree)) == multiset(AllFiles(old(tree)))
      ensures currentPath == old(currentPath) && copied == old(copied)
      ensures Valid()
    {
      var parentNode := GetNodeFromPath(tree, currentPath);
      if RenameRefused(parentNode, oldName, answer) {
        return;
      }
      var newName := answer.value;
      RenameFolderFiles(tree, currentPath, oldName, newName);
      RenameFolderWellFormed(tree, currentPath, oldName, newName, SlashFree);
      RenameFolderOutside(tree, currentPath, oldName, newName, currentPath);
      tree := RenameFolderAt(tree, currentPath, oldName, newName);
    }
  }
}
