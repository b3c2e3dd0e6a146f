# Telegram drive front end: the folder tree

The three browser clients of this drive hold the user's files as one in-memory
folder tree. Each folder has its own file list and its child folders keyed by
name.

- **app.js** draws the whole tree at once. It builds the tree from the server's
  flat `{file_id, file_path}` list and flattens it back for upload. It also
  keeps the set `expandedPaths` of open folders, keyed by `/`-joined paths.
  Files are copied and pasted with a fresh id, deleted, and folders are
  deleted when empty or renamed.
- **not_bad_1/app.js** shows one folder at a time (`currentPath`). It uses the
  same codec and the same edits on the folder shown, and names a file after
  the raw last `/`-piece of its path.
- **telegram_style/app.js** stores the tree itself as
  `{files: [...], folders: {...}}`. A path that no longer resolves falls back
  to the root. Files are uploaded, cut and pasted (moved), renamed and
  deleted.

The model has eight modules.

- `Wrappers` holds `Option`.
- `Text` holds the JavaScript string operations the clients use: `split`,
  `join`, `trim`, `replace` with its `$` patterns, and `toLowerCase` on the
  ASCII letters only.
- `FileTree` holds the tree as a value. A folder is a `Node` of files and an
  ordered list of named child folders, in the insertion order JavaScript keys
  keep. It also has path lookup and path update.
- `Codec` holds `buildTree` and the flatten walk.
- `Edits` holds the tree edits as functions of the old tree, with lemmas that
  say what changed and that nothing else did.
- One module per client: `TreeUi`, `FolderUi` and `TelegramUi`. Each has a
  `Drive` class holding the client's global state. Its methods are the event
  handlers, and each is specified against the `Edits` functions.

Every `confirm`/`prompt` answer and every freshly generated id is a parameter.

## Model

| member | source | states |
|---|---|---|
| Text.Split | app.js:82 | `split` gives at least one piece and no piece contains the separator |
| Text.JoinSplit | app.js:82 | joining the pieces of `split` with the same separator gives the string back |
| Text.SplitJoin | app.js:519 | splitting a `join` of pieces that do not contain the separator gives the pieces back |
| Text.Trim | telegram_style/app.js:625 | `trim` gives the infix of the input that starts right after its leading whitespace and leaves only whitespace after it; the result neither starts nor ends with whitespace, and is empty exactly when the input is blank |
| Text.ReplacePrefix | app.js:458 | `replace` of a prefix by a replacement without `$` swaps exactly that prefix |
| Text.SubstituteLiteral | app.js:458 | a replacement string without `$` is inserted literally |
| FileTree.IndexOfName | app.js:94 | `node[name]` finds the first key equal to `name`, or reports that no key is |
| FileTree.ChildPut | app.js:94 | after `node[x] = v`, key `x` holds `v` and every other key is unchanged |
| FileTree.ChildWithout | app.js:412 | after `delete node[x]`, key `x` is gone and every other key is unchanged |
| FileTree.NoContentIsEmpty | telegram_style/app.js:266-269 | a folder without subfolders and files is exactly the empty folder |
| FileTree.LookupConcat | app.js:559-565 | walking `p + q` is walking `p`, then `q` from there |
| FileTree.SetAtTarget | app.js:559-565 | after replacing the folder at a path, that path holds the new folder |
| FileTree.SetAtAside | app.js:559-565 | replacing the folder at a path leaves every path beside it unchanged |
| FileTree.SetAtAbove | app.js:559-565 | the folders above a replaced folder keep their files and their child names |
| FileTree.SetAtWellFormed | app.js:412 | replacing a folder by a well-formed one keeps every level's sibling names distinct |
| FileTree.SetAtFiles | app.js:354 | replacing a folder trades exactly its files for the new folder's files |
| FileTree.UniqueIdsShrink | app.js:376 | an edit that only removes entries keeps ids unique |
| FileTree.UniqueIdsAdd | app.js:349-354 | adding one entry with an id not in the tree keeps ids unique |
| FileTree.UniqueIdsSwap | telegram_style/app.js:627 | swapping one entry for one with the same id keeps ids unique |
| Codec.PathParts | app.js:82 | the segments of a path are non-empty and slash-free |
| Codec.BuildTree | app.js:77-101 | the `forEach` loop builds the tree `Build` defines, one record at a time |
| Codec.AddFileTarget | app.js:85-96 | the folder reached by walking the segments exists afterwards; its file list gains the entry at its end |
| Codec.AddFileKeeps | app.js:93-96 | every existing folder survives an insertion with its files and child names, because existing folders are reused |
| Codec.AddFileFiles | app.js:87-92 | an insertion adds exactly one entry to the tree |
| Codec.InsertAppends | app.js:77-101 | a record with segments appends `{name, file_id}` to its folder; a record without segments adds nothing |
| Codec.InsertKeeps | app.js:85-97 | each record's insertion keeps every folder, its files as a prefix, and its child names |
| Codec.BuildCount | app.js:77-101 | the tree holds as many files as there are records with at least one segment |
| Codec.BuildWellFormed | app.js:77-101 | the built tree has distinct sibling names and no folder name holding `/` |
| Codec.ExtensionOf | app.js:517-518 | `file_type` is `""` for a name without a dot, else the lowercased text after the last dot |
| Codec.FlattenOnePerFile | app.js:514-533 | flatten emits exactly one record per file, in tree order, with the file's id and type |
| Codec.AddFileFlatten | app.js:514-533 | adding a file to the tree adds exactly its record to the flattened list |
| Codec.RecordPathParses | app.js:519 | the path flatten writes parses back into the folder path and the file name |
| Codec.NamingsAgree | not_bad_1/app.js:77 | the raw last `/`-piece and the last segment agree unless the path ends with `/` |
| Codec.TrailingSlashName | not_bad_1/app.js:66-79 | a path ending with `/` yields a file named `""` |
| Codec.TrailingSlashExample | not_bad_1/app.js:62-88 | the record `/a/b/` puts a file named `""` into folder `a` |
| Codec.RoundTrip | app.js:514-533 | flattening the tree built from canonical records gives back the same records as a multiset, with `file_type` recomputed |
| Codec.RoundTripExact | not_bad_1/app.js:481-500 | when records already carry the type flatten computes, the round trip gives back exactly the same records as a multiset |
| Edits.GetNodeFromPath | not_bad_1/app.js:307-313 | the reassigning loop ends at the folder the path names; the empty path gives the root |
| Edits.LookupPrefix | app.js:559-565 | every folder on the way to an existing folder exists |
| Edits.IndexOfId | app.js:370 | `findIndex` gives the first entry with the id, or reports that none has it |
| Edits.RemoveFirstIdSpec | app.js:368-376 | an absent id leaves the list alone; otherwise only the first entry with it goes, and the rest keep their order |
| Edits.RemoveAllIdSpec | telegram_style/app.js:662 | the `filter` drops every entry with the id and keeps every other entry |
| Edits.RemoveAllIdConcat | telegram_style/app.js:662 | the `filter` works piece by piece over a concatenation, so the kept entries stay in their original order |
| Edits.RemoveAllIdSplits | telegram_style/app.js:573 | the kept entries and the dropped entries together make up the list |
| Edits.WithFilesAt | app.js:354 | replacing one folder's file list keeps every folder and every other folder's files |
| Edits.AppendFresh | app.js:354 | appending an entry adds exactly it to the tree; with a fresh id, ids stay unique |
| Edits.RemoveFirstFiles | app.js:376 | deleting the first entry with an id removes exactly that entry from the tree; ids stay unique |
| Edits.RemoveAllFiles | telegram_style/app.js:659-664 | the filter removes exactly the matching entries from the tree; ids stay unique |
| Edits.DeleteFolderAtPath | app.js:412 | after `delete parentNode[name]`, nothing is left below `name` and every sibling subtree is unchanged |
| Edits.DeleteFolderOutside | not_bad_1/app.js:413 | paths not below the parent keep their folders and files |
| Edits.DeleteFolderFiles | app.js:398-412 | deleting a folder without subfolders and files loses no file |
| Edits.DeleteFolderWellFormed | app.js:412 | deleting a key keeps sibling names distinct |
| Edits.RenameFolderAtPath | app.js:445-446 | after the move, the subtree sits unchanged under the new key, the old key is gone, and other siblings are untouched |
| Edits.RenameFolderOutside | not_bad_1/app.js:435-436 | paths not below the parent keep their folders and files |
| Edits.RenameFolderFiles | app.js:445-446 | the move loses no file |
| Edits.RenameFolderWellFormed | app.js:439-446 | with a name no sibling has, the move keeps sibling names distinct |
| Edits.RenameAccepted | app.js:435-442 | an accepted answer is non-blank, differs from the old name, is no sibling's key, and is no reserved key |
| Edits.RenameRefusesReserved | app.js:439-442 | `files` and the inherited object members are always refused |
| Edits.TakenAgrees | not_bad_1/app.js:429 | on every name but `files`, the guard as written and the corrected guard agree |
| Edits.RenameToFilesAsWritten | app.js:439-446 | as written, renaming a folder to `files` passes the guard and the folder disappears from the listing |
| TreeUi.PathSegments | app.js:116-117 | in a tree from `buildTree`, every folder path consists of slash-free segments |
| TreeUi.KeyInjective | app.js:116-117 | two folder paths have the same `expandedPaths` key exactly when they are equal |
| TreeUi.KeyBelow | app.js:456 | a key starting with another key plus `/` belongs to a folder strictly below it |
| TreeUi.RewriteAgrees | app.js:452-463 | the `replace` as written and the corrected prefix rewrite agree when the whole new key holds no `$`: neither the new name nor the names of the folders above it |
| TreeUi.DollarRenameAsWritten | app.js:458 | renaming `a` to `x$&` turns the open key `a/b` into `xa//b` as written |
| TreeUi.RewriteExpanded | app.js:448-465 | the loop re-keys every open key (the folder itself, keys below it, and all others unchanged), and the set never grows |
| TreeUi.RewriteKeyMoves | app.js:448-465 | re-keying a folder's key gives the key of its new place |
| TreeUi.RenameMovesFolder | app.js:445-446 | each existing folder exists at its moved path, and a folder inside the renamed one keeps its whole subtree |
| TreeUi.MovedInjective | app.js:445-446 | two existing folders never move onto the same place |
| TreeUi.RenameKeepsExpanded | app.js:448-465 | after a rename, every open key still names an existing folder, and each folder is open exactly when it was open before |
| TreeUi.DeleteKeepsExpanded | app.js:412-416 | after deleting an empty folder and its own key, every open key still names an existing folder |
| TreeUi.WithFilesKeepsExpanded | app.js:354 | file edits keep every open key about an existing folder |
| TreeUi.Toggled | app.js:189-193 | a click puts the folder's key in the set if absent and takes it out if present; other keys are unchanged |
| TreeUi.ToggleKeepsExpanded | app.js:186-193 | toggling an existing folder keeps every open key about an existing folder |
| TreeUi.ParentOf | app.js:393-395 | the parent path of an existing folder resolves, and its child under the last segment is that folder |
| TreeUi.RenameKeepsState | app.js:430-465 | an accepted rename of the folder at a path keeps every file and distinct sibling names; for slash-free names it keeps every re-keyed open key about an existing folder |
| TreeUi.Drive.constructor | app.js:77-101 | the tree `buildTree` makes of the server list; nothing open, nothing copied; well formed |
| TreeUi.Drive.Toggle | app.js:186-193 | the set is `Toggled` at the folder's key; nothing else changes |
| TreeUi.Drive.Copy | app.js:323-332 | remembers the entry; tree and open keys are unchanged |
| TreeUi.Drive.PasteToFolder | app.js:338-363 | with nothing copied, nothing changes; otherwise one `{name, freshId}` entry is appended to the target folder and the clipboard stays set; with a fresh id, ids stay unique |
| TreeUi.Drive.DeleteFile | app.js:368-385 | an absent id or a declined confirm changes nothing; otherwise the first entry with the id goes and the tree has one file less |
| TreeUi.Drive.DeleteFolder | app.js:391-425 | a folder with content, or a declined confirm, changes nothing; otherwise exactly that key and its own open key go, and no file is lost |
| TreeUi.Drive.RenameFolder | app.js:430-474 | a refused answer changes nothing; otherwise the subtree moves and the open keys are re-keyed; no file is lost, sibling names stay distinct, and a slash-free answer keeps every open key about an existing folder |
| FolderUi.Drive.Shown | not_bad_1/app.js:93-98 | the folder on screen is the folder `currentPath` names |
| FolderUi.Drive.constructor | not_bad_1/app.js:62-88 | the tree `buildTree` makes with raw last-piece naming, shown from the root |
| FolderUi.Drive.OpenFolder | not_bad_1/app.js:200-205 | the path gains the folder's name, and the folder shown is that child |
| FolderUi.Drive.GoBack | not_bad_1/app.js:98-117 | below the root, the path loses its last name, and the folder shown is the old one's parent |
| FolderUi.Drive.Copy | not_bad_1/app.js:327-338 | remembers the entry; tree and path are unchanged |
| FolderUi.Drive.PasteToFolder | not_bad_1/app.js:344-372 | with nothing copied, nothing changes; otherwise exactly one fresh-id copy is appended to the child folder and the clipboard stays set |
| FolderUi.Drive.DeleteFile | not_bad_1/app.js:377-391 | an unknown id or a declined confirm changes nothing; otherwise exactly one entry leaves the folder shown |
| FolderUi.Drive.DeleteFolder | not_bad_1/app.js:397-417 | a folder with content, or a declined confirm, changes nothing; otherwise only that key goes |
| FolderUi.Drive.RenameFolder | not_bad_1/app.js:422-441 | a refused answer changes nothing; otherwise the subtree moves to the new key and no file is lost |
| TelegramUi.GetFolderByPath | telegram_style/app.js:598-608 | the walk gives the folder the path names, or None as soon as a segment is missing |
| TelegramUi.Target | telegram_style/app.js:577 | `getCurrentFolder() \|\| fileTree`: the path itself when it resolves, otherwise the root |
| TelegramUi.Category | telegram_style/app.js:534-540 | the result is one of the five categories, and is `default` exactly when the extension is not in the table |
| TelegramUi.FileTypeOfExtension | telegram_style/app.js:532-541 | with a dot, the category of the extension flatten reports; without one, the category of the whole lowercased name |
| TelegramUi.ExampleSong | telegram_style/app.js:532-541 | `Song.MP3` is audio |
| TelegramUi.ExampleBareExtension | telegram_style/app.js:533 | a file named `mp3` is audio; a file named `notes` is default |
| TelegramUi.ClearedFolders | telegram_style/app.js:571-574 | removing the cut id from the source keeps every folder, and the source holds no entry with the id afterwards |
| TelegramUi.PasteCutFiles | telegram_style/app.js:566-580 | a paste trades the source's entries with the cut id for the cut entry |
| TelegramUi.PasteCutPlaces | telegram_style/app.js:566-580 | the cut entry lands last in the folder shown, or in the root; every folder is kept; a different source holds no entry with the id |
| TelegramUi.PasteIsMove | telegram_style/app.js:566-580 | with unique ids and the entry still in its source, a paste keeps the tree's entries and unique ids |
| TelegramUi.RenamedFileFolders | telegram_style/app.js:627 | renaming a file changes only that entry's name; every folder is kept |
| TelegramUi.RenamedFileEntries | telegram_style/app.js:627 | renaming swaps one entry for the same entry under the new name, with the same id; ids stay unique |
| TelegramUi.Drive.constructor | telegram_style/app.js:80-102 | the stored tree, or an empty root when there is none or loading failed |
| TelegramUi.Drive.CurrentFolder | telegram_style/app.js:254-264 | the folder `currentPath` names, None when it does not resolve |
| TelegramUi.Drive.OpenFolder | telegram_style/app.js:296-299 | the path gains the folder's name |
| TelegramUi.Drive.NavigateBack | telegram_style/app.js:159-163 | below the root, the path loses its last name |
| TelegramUi.Drive.Cut | telegram_style/app.js:553-558 | the entry and a copy of its folder's path are remembered |
| TelegramUi.Drive.CancelCut | telegram_style/app.js:592-596 | the cut state is cleared |
| TelegramUi.Drive.Paste | telegram_style/app.js:566-590 | with no cut, nothing changes; otherwise the entry moves as `PasteCut` says and the cut state is cleared |
| TelegramUi.Drive.Upload | telegram_style/app.js:516-530 | exactly one entry with name, size, type and fresh id is appended to the folder shown, or to the root |
| TelegramUi.Drive.RenameFile | telegram_style/app.js:624-633 | a trimmed, non-empty, different name replaces the entry's name; otherwise nothing changes; ids stay unique |
| TelegramUi.Drive.DeleteFile | telegram_style/app.js:659-664 | every entry with the id leaves the folder, or the root when the path no longer resolves; the others keep their order |

## Left out

- Network I/O is not modelled: `fetch`, `loadFileTree`'s request, `saveFileTree`, the POST half of `updateBackend` and `handleDownload`. The loaded tree is a constructor parameter, and a failed load is `None`.
- Rendering, menus, modals, toasts, long-press timers and the Telegram SDK calls are UI. Sorting the folder names with `localeCompare` works on a copy of the keys and changes nothing.
- Sorting the shown file lists in place is not modelled. In app.js and not_bad_1/app.js, every render also sorts the `files` array of each folder it shows, by `name.localeCompare`. app.js shows the root and every expanded folder (app.js:219-220). not_bad_1/app.js shows the current folder (not_bad_1/app.js:212-213). `localeCompare` depends on the locale. The model keeps insertion order, so every Drive method below states an order the source does not leave behind after its render. The entries are the same and only their order differs.
- TreeUi.Drive.constructor: the tree is `Build` of the records in record order. After the load, the source has also sorted the root's file list. It also keeps the folder-segment `files` gap described under Codec.BuildTree.
- TreeUi.Drive.Toggle: the render after a toggle also sorts the newly shown folder's file list. The model leaves the tree unchanged.
- TreeUi.Drive.PasteToFolder: the copy is appended at the end of the target's list. If the target is shown, the source then sorts that list by name.
- TreeUi.Drive.DeleteFile: "the first entry with the id" is first in the list as the model keeps it. In the source the list is sorted when shown.
- TreeUi.Drive.DeleteFolder: the render after the deletion, which sorts the shown lists, is not modelled.
- TreeUi.Drive.RenameFolder: the render after the rename, which sorts the shown lists, is not modelled.
- FolderUi.Drive.constructor: the tree is `Build` with raw last-piece naming, in record order. The source has also sorted the root's file list after its render. It also keeps the folder-segment `files` gap described under Codec.BuildTree.
- FolderUi.Drive.OpenFolder: the opened folder's file list is sorted by the render in the source, and left as it is in the model.
- FolderUi.Drive.GoBack: the parent's file list is sorted by the render in the source, and left as it is in the model.
- FolderUi.Drive.PasteToFolder: the copy goes at the end of the child's list. The child is not shown, but the render after the paste sorts the current folder's list.
- FolderUi.Drive.DeleteFile: "the first entry with the id" is first in the list as the model keeps it. The source's list is sorted by the earlier renders.
- FolderUi.Drive.DeleteFolder: the render after the deletion, which sorts the current folder's list, is not modelled.
- FolderUi.Drive.RenameFolder: the render after the rename, which sorts the current folder's list, is not modelled.
- `alert`, `confirm` and `prompt` are parameters: a `bool` for `confirm`, and an `Option<string>` for `prompt`, where None means cancelled.
- `Date.now()` and `Math.random()` ids are a `freshId` parameter. In the Telegram client that id is a number; here it is a string.
- `formatFileSize` is floating point. The icon map, `getFileIcon` and assets/icons.js are static data.
- `handleCutFolder` only shows a toast.
- The Telegram folder modals are called but not defined in the client, so they are not part of this model.
- `navigateBack` at the root closes the mini-app or shows the browser. The model leaves the path unchanged there.
- Objects are modelled as values, so aliasing is not. A cut or copied entry is a snapshot of the object, and a later in-place rename of that same object is not reflected in `cutFileObj`. The rename dialog's target `fileObj` is identified by its folder and position.
- Key order: the ordered child list follows insertion order. JavaScript lists integer-like keys (`"2"`, `"10"`) first, in numeric order, so flatten order differs for such names. The round trip compares multisets, so it does not depend on that order.
- Inherited `Object.prototype` members such as `constructor` are not modelled as lookups in `buildTree`, `getNodeFromPath`, `getfolderByPath` or `typeMap`. The source would find the inherited function there. Only the rename guard models them, as reserved keys.
- Codec.RoundTrip: it needs canonical records, whose folder segments avoid `files`. A record with a folder segment `files` makes `buildTree` write into the file list itself.
- Codec.BuildTree: a folder segment named `files` becomes an ordinary child folder in the model. In the source (app.js:94-95, not_bad_1/app.js:82-83), `node["files"]` is the file-list slot. For `/files/a.txt`, `{files: [...]}` is stored in the root's file-list slot, and the next render or flatten throws on it. If the root already has a file list, the walk descends into that array and the file is lost from every listing. The `Node` value has no way to hold an object in the file-list slot, so this case is not modelled.
- Codec.InsertAppends: stated for all records. It holds in the source only when no folder segment is `files` (see Codec.BuildTree).
- Codec.InsertKeeps: holds in the source only when no folder segment is `files` (see Codec.BuildTree).
- Codec.AddFileTarget: holds in the source only when no folder segment is `files` (see Codec.BuildTree).
- Codec.AddFileKeeps: holds in the source only when no folder segment is `files` (see Codec.BuildTree).
- Codec.AddFileFiles: holds in the source only when no folder segment is `files` (see Codec.BuildTree).
- Codec.BuildCount: the count holds in the source only when no folder segment is `files` (see Codec.BuildTree).
- Codec.BuildWellFormed: the source's tree is not well formed after a folder segment `files` (see Codec.BuildTree). The model's tree always is.
- Codec.ExtensionOf: `toLowerCase` is modelled on the ASCII letters `A`-`Z` only. JavaScript lowercases all of Unicode. For `a.ÉTÉ` the source sends `été` and the model sends `ÉTÉ`. An extension written with U+212A KELVIN SIGN lowercases to `k` in the source and stays as it is in the model.
- Codec.FlattenOnePerFile: the `file_type` it states uses the same ASCII-only lowercasing as Codec.ExtensionOf.
- Codec.FlattenOnePerFile: per record, the lemma states the id and the type. The path is stated separately, by Codec.RecordPathParses and Codec.RoundTrip.
- TreeUi.Drive.RenameFolder: open keys stay consistent only when the new name has no `/`. The prompt accepts a `/`, whose key then reads as a deeper path.
- TreeUi.Drive.RenameFolder: this handler models the corrected guard and re-keying, not the code as written. `RenameRefused` always refuses `files`, while app.js:439 accepts it in a parent without a file list. `RewriteKey` re-keys literally, while app.js:458 applies `$` patterns from the new key. The code as written is modelled by Edits.RenameToFilesAsWritten and TreeUi.RewriteKeyAsWritten (see Findings). TreeUi.RewriteAgrees shows the two re-keyings agree when the new key has no `$`.
- TreeUi.RewriteExpanded: the loop uses the literal `RewriteKey`. The source's `replace` differs when the new key (the new name or a parent folder's name) holds a `$`.
- TreeUi.RenameKeepsState: it is about the corrected guard and re-keying, as TreeUi.Drive.RenameFolder is.
- FolderUi.Drive.RenameFolder: it models the corrected guard, which always refuses `files`. not_bad_1/app.js:429 accepts `files` in a parent without a file list. Edits.RenameToFilesAsWritten shows what then happens.
- TelegramUi.FileTypeOfExtension: lowercasing is ASCII only, as in Codec.ExtensionOf. A name whose extension has non-ASCII capitals, or the KELVIN SIGN in `MKV`, gets `default` in the model where the source may find a category.
- TelegramUi.Category: it looks up the extension as the model lowercases it, which covers the ASCII letters only (see Codec.ExtensionOf).
- `hasContent` in the Telegram client only selects the empty-state view. It is FileTree.HasContent, which the delete-folder guard also uses.
- Three behaviours one might expect are absent from the code, and the model follows the code:
  - Deleting a file leaves the cut state as it is (telegram_style/app.js:659-664), even when the deleted entry is the one that was cut.
  - Renaming a file replaces its whole name, extension included (telegram_style/app.js:624-626).
  - Flatten emits records only for files, so an empty folder leaves no trace in the uploaded list (app.js:514-533).

## Findings

| source | as written | input that shows it | evidently intended | confidence | as-written member | corrected member |
|---|---|---|---|---|---|---|
| app.js:439-446, not_bad_1/app.js:429-436 | the collision guard `parentNode[newName]` accepts `files` when the parent has no file list | rename the only folder `docs` of a folder without files to `files` | refuse `files` like an existing key, so the folder cannot move into the file-list slot and vanish | not executed | Edits.RenameToFilesAsWritten | Edits.RenameRefusesReserved |
| app.js:456-458 | `key.replace(oldKeyPrefix, newKeyPrefix)` reads `$&`, `$'` and similar patterns anywhere in the new key: the new name or an existing parent folder's name | rename `a` to `x$&` with `a/b` open: the key becomes `xa//b` | replace the prefix literally, giving `x$&/b` | not executed | TreeUi.DollarRenameAsWritten | TreeUi.RenameKeepsExpanded |
