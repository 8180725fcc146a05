# obsidian-typing: types and notes

This project models the typing layer of the obsidian-typing plugin in Dafny. Two classes make up that layer:

- `Type` is a node of a multi-parent type graph. Its fields, actions and methods are inherited from its parents. It indexes its ancestors. It seeds, creates and lists the notes stored in its folder.
- `Note` is a handle on one stored document. It is bound to the type resolved for its path. It computes folder, filename, fullname, extension, prefix and title from the path. It renames, reads and applies its state, and casts up to a supertype.

The model is laid out in modules:

- `Wrappers`: `Option`, `Result`, and `FirstSome`, the first hit of an ordered list of lookups.
- `Strings`: the JavaScript string operations the core uses, over sequences of characters.
  - `lastIndexOf`.
  - `slice`, with negative and clamped indices.
  - `trim`, over the ECMAScript whitespace set.
- `Paths`: the path getters of a note, and how paths join and split back.
- `Env`: the collaborators the core calls but does not define, each modelled only as far as its call sites use it.
  - The prefix rule: an abstract `parse`.
  - The document store (`Vault`), a map from path to file or folder.
  - The field accessor of a stored document: values, fields whose read raises, and a write log.
  - The in-memory buffer accessor `create` writes through, with an abstract text encoding.
- `Types`: the inheritance merge, the `Type` class and the folder collection of `getAllNotes`. Also the registry (`Graph`) and the ancestor index, given as a fold (`IndexList`) and as reachability (`Reach`).
- `TypeLemmas`: what the ancestor index contains, `isinstance`, the folder sets, and where `create` stores a note.
- `Notes`: the `FieldsProxy` and `Note` classes, and `super`.
- `NoteLemmas`: rename read-back, re-applying a state, and `super`.

The graph is acyclic by construction. A `Type` is built only from parents that exist already, and records a `depth` one greater than its deepest parent. `Ranked()` states this, and every recursion over parents decreases on it. The source has no cycle check; on a cycle, `indexAncestors` would not terminate.

JavaScript objects iterated with `for … in` become maps, and the model fixes no iteration order. Where a loop issues writes, the contract says that the write log lists every entry exactly once, in some order (`Enumerates`). A `Set` becomes an insertion-ordered sequence without duplicates.

Some source behaviour is kept as written:

- `fullname` of a filename without a `.` drops the last character, because `slice(0, -1)` does (`Paths.NoDotQuirk`).
- A rename with folder `""` targets `"/" + filename` (`NoteLemmas.RootFolderQuirk`).
- `applyState` writes through the private `_fields` proxy. Only the public `fields` getter creates that proxy, and only on a typed note. Within `applyState` the getter is reached only through `getState`, which calls it once per field of the type, so the proxy exists there only if it existed already or the note is typed with at least one field. Otherwise `NoFieldsProxy` is reported when a field write is attempted.
- The hooks run on the note's own type. On an untyped note, `rename` still moves the file. It reaches the ON_RENAME hook through a null type, so no event is produced. Likewise `create` fires ON_CREATE on the type that the new note's handle resolves to, which need not be the creating type, and fires nothing when that handle is untyped.
- `applyState` compares titles with `!=`. It renames whenever the new title is absent, and that rename recomposes the current name.

Some members define what the core assumes of its collaborators rather than model core code. They carry no rows below:

- `Env.StoredExtension`: the extension the store reports for a file, `TFile.extension`.
- `Env.Vault.Lookup`: `getAbstractFileByPath`.
- `Env.Vault.MarkdownChildren`: a folder's `children`, filtered to `md` files.
- `Env.FieldAccessor.Read`: the field accessor's `getValue`.
- `Types.OrElse`: the fallback of an unset inheriting attribute in `DataClass`.
- `Types.BindField`: `Field.bind`.

## Model

| member | source | states |
|---|---|---|
| Strings.LastIndexOf | src/typing/note.tsx:82 | `lastIndexOf(c)` is -1 iff `c` does not occur; otherwise that index holds `c` and no later one does |
| Strings.Slice | src/typing/note.tsx:84-113 | `slice(start, end)` with negative indices counted from the end and indices clamped to the string (properties in `SliceJoin`, `SliceWithin`) |
| Strings.SliceJoin | src/typing/note.tsx:84-113 | adjacent in-bounds slices join up: `slice(a, b) + slice(b, c) == slice(a, c)` |
| Strings.SliceWithin | src/typing/note.tsx:84-113 | within bounds, `slice(start, end)` is the plain subsequence |
| Strings.Trim | src/typing/note.tsx:190 | `trim()` gives a contiguous piece of the input with no whitespace at either end, and everything it removes before and after that piece is whitespace |
| Strings.TrimSpan | src/typing/note.tsx:190 | trimming the start, then the end, leaves a piece of the input with only whitespace around it |
| Strings.TrimIdempotent | src/typing/note.tsx:190 | trimming twice is trimming once |
| Strings.TrimLeadingSpace | src/typing/note.tsx:190 | `trim(" " + t)` is `t` for a trimmed `t`: the empty prefix of a name disappears |
| Paths.FolderOf | src/typing/note.tsx:81-88 | `folder` is a prefix of the path, and `""` when the path has no `/` |
| Paths.FilenameOf | src/typing/note.tsx:90-94 | `filename` is a suffix of the path and contains no `/` |
| Paths.FullnameOf | src/typing/note.tsx:96-100 | `fullname` contains no `/` |
| Paths.ExtensionOf | src/typing/note.tsx:110-114 | `extension` contains neither `.` nor `/` |
| Paths.FolderFilenameJoin | src/typing/note.tsx:81-94 | for a path containing `/`: `folder + "/" + filename == path` |
| Paths.NoFolder | src/typing/note.tsx:81-94 | without a `/`, folder is `""` and filename is the whole path |
| Paths.FolderFilenameOfJoin | src/typing/note.tsx:81-94 | `folder + "/" + name` with a `/`-free name splits back into exactly that folder and name |
| Paths.FullnameExtensionJoin | src/typing/note.tsx:96-114 | for a filename containing `.`: `fullname + "." + extension == filename` |
| Paths.NoDotQuirk | src/typing/note.tsx:96-114 | without a `.`, extension is the whole filename and fullname drops its last character |
| Paths.FullnameExtensionOfJoin | src/typing/note.tsx:96-114 | `folder/stem.ext`, with `/`-free stem and `.`/`/`-free ext, has fullname `stem` and extension `ext` |
| Paths.DotSplitJoin | src/typing/note.tsx:96-114 | `stem + "." + ext` with a `.`-free ext splits at its last `.` into exactly `stem` and `ext` |
| Paths.LastIndexOfJoin | src/typing/note.tsx:82 | the last `c` of `a + [c] + b` is at the length of `a` when `b` holds no `c` |
| Env.Vault.CreateFolder | src/typing/type.tsx:110 | the folder entry is added and nothing else changes |
| Env.Vault.Create | src/typing/type.tsx:113 | storing succeeds iff the path is free; on success exactly that file is added, otherwise nothing changes |
| Env.Vault.RenameFile | src/typing/note.tsx:201 | the move succeeds iff the source is a file and the target is the same path or free; on success only that entry moves |
| Env.FieldAccessor.SetValue | src/typing/note.tsx:297 | the value is stored and exactly this write is appended to the log |
| Env.Buffer.SetValue | src/typing/type.tsx:97-101 | the buffer's content is re-encoded with the write, and the write is logged |
| Env.WrittenKeysSnoc | src/typing/type.tsx:98-100 | appending a write adds exactly its key to the keys written |
| Env.ApplyWritesSnoc | src/typing/type.tsx:98-101 | the content after one more write is that write applied to the content so far |
| Wrappers.FirstSome | src/typing/note.tsx:54-74 | the first set entry of a list of lookups; absent iff every lookup is absent |
| Types.MergeMaps | src/typing/type.tsx:27-32 | `{...b, ...a}`: keys are the union, an own entry wins, an inherited one fills the rest |
| Types.InheritFrom | src/typing/type.tsx:9-34 | one inheritance step: `parents`, `folder` and `glob` are the child's; the three maps merge with own entries winning; `isAbstract`, `parentNames`, `icon`, `prefix` and `hooks` are the child's when set and the parent's otherwise |
| Types.InheritAll | src/typing/type.tsx:15-32 | inheritance as one `InheritFrom` step per parent, in declared order (properties in `InheritAllKeepsOwn`, `InheritAllFields` and the five `InheritAll` fallback lemmas below) |
| Types.OrElseFirst | src/typing/type.tsx:9-34 | falling back from one value to the next is the first present value of the pair, so one fallback step per parent composes into a `??` chain |
| Types.InheritAllIsAbstract | src/typing/type.tsx:9-10 | the merged `isAbstract` is the child's when set, otherwise that of the first parent in declared order that sets it, and unset when none does |
| Types.InheritAllParentNames | src/typing/type.tsx:13-14 | the merged `parentNames` is the child's when set, otherwise that of the first parent in declared order that sets it |
| Types.InheritAllIcon | src/typing/type.tsx:21-22 | the merged `icon` is the child's when set, otherwise that of the first parent in declared order that sets it |
| Types.InheritAllPrefix | src/typing/type.tsx:23-24 | the merged `prefix` is the child's when set, otherwise that of the first parent in declared order that sets it |
| Types.InheritAllHooks | src/typing/type.tsx:33-34 | the merged hook set is the child's whole set when declared, otherwise the whole set of the first parent in declared order that declares one; sets are never merged |
| Types.InheritAllKeepsOwn | src/typing/type.tsx:15-20 | through any number of parents, name, `parents`, `folder` and `glob` stay the child's own |
| Types.InheritAllFields | src/typing/type.tsx:27-28 | the merged fields: keys are the child's and every parent's; the child's entry wins; otherwise the first parent in order that defines the key supplies it |
| Types.InheritAllFieldKeys | src/typing/type.tsx:27-28 | a key is in the merged fields iff the child or some parent defines it |
| Types.InheritAllOwnField | src/typing/type.tsx:27-28 | a field the child defines survives every merge unchanged |
| Types.InheritAllParentField | src/typing/type.tsx:27-28 | a field the child lacks comes from the first parent in order that defines it |
| Types.MaxDepth | src/typing/type.tsx:16 | bounds the depth of every parent, so a new type lies strictly above its parents |
| Types.Type.IsCreateable | src/typing/type.tsx:120-122 | a type can create and list notes iff it has a folder (used by `Create` and `GetAllNotes`) |
| Types.Type.constructor | src/typing/type.tsx:8-40 | every attribute is as declared, with the declared defaults for unset ones; as `onAfterCreate` rebinds them, every field is the declared one bound to the new type; the ancestor index starts empty; the type lies above its parents |
| Types.Type.GetAncestor | src/typing/type.tsx:162-164 | non-null iff the name is a key of the ancestor index, and then that entry |
| Types.Type.RebindFields | src/typing/type.tsx:47-51 | the key set of `fields` is unchanged, and every entry is its old field bound to this type |
| Types.Type.IndexAncestors | src/typing/type.tsx:53-59 | the index afterwards is the old one extended by the depth-first walk over the parents (`IndexList`) |
| Types.Type.OnAfterInherit | src/typing/type.tsx:42-45 | fields are rebound; the ancestor index is the old one extended by the walk over the parents, exactly the walk when it started empty |
| Types.Type.SeedState | src/typing/type.tsx:65-72 | the seeded state: every field of the type at its default, overridden by the initial state's fields; the type defaults to this type |
| Types.Type.PromptNew | src/typing/type.tsx:65-88 | with a CREATE hook it fires that hook with the seeded state and returns nothing; otherwise it returns the prompt's answer for the seeded state |
| Types.Type.Create | src/typing/type.tsx:90-118 | no state: nothing happens. Otherwise: every state field is written exactly once; the folder is created if missing; the document is stored at `CreatePath` with the encoded content; ON_CREATE fires iff the new note's handle resolves to a type (`NewNoteType`), on that type; an occupied path is refused |
| Types.ComposeContent | src/typing/type.tsx:95-102 | every field of the state is written exactly once through the buffer accessor, and the content is `text ?? ""` with those writes applied in that order |
| Types.Type.GetAllNotes | src/typing/type.tsx:124-160 | a type without folder fails. With the index, the answer is the answer to the `"f1" OR …` query over the search folders. Without it, the result is an error iff some search folder is stored as a file, naming the first such folder, and otherwise exactly the `md` files directly in the search folders, without duplicates |
| Types.Type.SearchFolders | src/typing/type.tsx:129-139 | the folders to search: this type's, then with subtypes those found by `SubtypeFolders` (properties in `SearchFoldersMembers`) |
| Types.SubtypeFolders | src/typing/type.tsx:133-139 | the scan over the registry adding each folder of a type that indexes this type as an ancestor (properties in `SubtypeFoldersMembers`) |
| Types.FolderQuery | src/typing/type.tsx:143 | the index query: each folder quoted, a null one as `null`, joined by ` OR ` (the answer is the index's, an abstract function) |
| Types.CreatePath | src/typing/type.tsx:105-106 | `folder/trim(prefix + " " + title).md` (read back by `CreatePathParts`) |
| Types.CollectPaths | src/typing/type.tsx:141-157 | the non-index branch: error iff a search folder is a file, and then it names the first one in order; otherwise the union of each existing folder's `md` children, without duplicates |
| Types.AddAll | src/typing/type.tsx:155 | adding the children to a set of paths: the members are the old ones plus the children, still without duplicates |
| Types.AddUnique | src/typing/type.tsx:131-137 | `set.add`: the old elements keep their places, the element is a member, and no duplicates appear |
| Types.Graph.Get | src/typing/note.tsx:219 | `get({name})` finds a registered type of that name, and is null iff there is none |
| Types.FindByName | src/typing/note.tsx:219 | the lookup by name behind `get` |
| Types.IsInstance | src/typing/note.tsx:223 | `isinstance(t, a)`: `a` has `t`'s name or is indexed among its ancestors (related to ancestry by `IsInstanceIsAncestry`) |
| Types.Candidates | src/typing/note.tsx:54-74 | the four lookups of the note constructor, in the order it tries them (used by `Note.constructor`) |
| Types.NewNoteType | src/typing/type.tsx:115 | the type `Note.new(path)` resolves for a just-stored file: the first hit of the lookups without an explicit type |
| TypeLemmas.ReachBelow | src/typing/type.tsx:53-59 | everything reachable through parents lies strictly lower and is itself ranked |
| TypeLemmas.NotOwnAncestor | src/typing/type.tsx:53-59 | in the acyclic graph a type is never its own ancestor |
| TypeLemmas.IndexListSpec | src/typing/type.tsx:53-59 | the keys the walk adds are exactly the names of all types reachable through one or more parent links, each mapped to a reachable type of that name |
| TypeLemmas.AncestorIndex | src/typing/type.tsx:53-59 | after `onAfterInherit`, `getAncestor(n)` is non-null iff `n` names an ancestor, and then it is an ancestor of that name |
| TypeLemmas.OwnNameNotIndexed | src/typing/type.tsx:53-59 | with unique names, the type's own name is never a key of its ancestor index |
| TypeLemmas.AncestorsClosure | src/typing/type.tsx:53-59 | the ancestors are the parents and their ancestors, and nothing else |
| TypeLemmas.ReachMembers | src/typing/type.tsx:53-59 | what is reachable from a list of parents is each of them or one of their ancestors |
| TypeLemmas.ReachCovers | src/typing/type.tsx:53-59 | every parent in the list, and each of its ancestors, is reachable from the list |
| TypeLemmas.ReachWithin | src/typing/type.tsx:53-59 | whatever is reachable from the list is one of its types or an ancestor of one |
| TypeLemmas.AncestorsTransitive | src/typing/type.tsx:53-59 | an ancestor's ancestors are ancestors |
| TypeLemmas.IsInstanceIsAncestry | src/typing/note.tsx:223 | with unique names, `isinstance(t, a)` holds iff `a` is `t` or one of its ancestors |
| TypeLemmas.SubtypeFoldersMembers | src/typing/type.tsx:133-139 | the scan keeps the folders found so far, in front, and adds exactly the folders of the types that index the name as an ancestor, without duplicates |
| TypeLemmas.SearchFoldersMembers | src/typing/type.tsx:129-139 | the search folders start with the type's folder; without subtypes they are just that folder; with subtypes they add the folder of every type that has this type as an ancestor |
| TypeLemmas.CreatePathParts | src/typing/type.tsx:105-106 | a created note's path reads back: its folder is the type's folder, its fullname is `trim(prefix + " " + title)`, its extension is `md` |
| TypeLemmas.StoredFileIsListed | src/typing/type.tsx:146-155 | an `md` file stored in a folder that was absent or a folder is among the paths `getAllNotes` collects from it; a file that occupied the folder's path is still a file, so `getAllNotes` fails on it |
| TypeLemmas.CreatedNoteIsListed | src/typing/type.tsx:105-113 | after `create` stores its note, the note's path is an `md` child of the type's folder, and `getAllNotes` collects it from that folder when the folder was absent (and so created) or already a folder; when a file held the folder's path, that file remains and `getAllNotes` fails |
| Notes.FieldsProxy.GetValue | src/typing/note.tsx:288-294 | a read that raises gives an absent value; otherwise the accessor's value |
| Notes.FieldsProxy.SetValue | src/typing/note.tsx:296-298 | the write reaches the accessor unchanged |
| Notes.Diff | src/typing/note.tsx:152-153 | the fields of the new state whose value differs from the current reading, each with its new value |
| Notes.RenameFilename | src/typing/note.tsx:186-192 | the given filename, else `trim(prefix + " " + title) + "." + extension` with each unset part the note's own (read back by `RenameTargetParts`) |
| Notes.RenameTarget | src/typing/note.tsx:185-195 | the given path, else `folder + "/" + filename` with an unset folder the note's own (read back by `RenameTargetParts`, `RootFolderQuirk`) |
| Notes.Note.constructor | src/typing/note.tsx:54-74 | the type is the first hit of: the explicit type; the lookup by path; the `_type` front-matter name when a file is stored there; the type named `default` |
| Notes.Note.Typed | src/typing/note.tsx:229-231 | a note is typed iff its handle resolved some type |
| Notes.Note.PartsAt | src/typing/note.tsx:81-122 | the folder, prefix, title and extension a note of this type has at a given path |
| Notes.Note.Parts | src/typing/note.tsx:81-122 | the current folder, prefix, title and extension, each as its getter computes it |
| Notes.Note.NamePrefix | src/typing/note.tsx:102-108 | `""` without a prefix rule, else the prefix the rule parses from the fullname |
| Notes.Note.Title | src/typing/note.tsx:116-122 | the fullname without a prefix rule, else the name the rule parses from it |
| Notes.Note.Actions | src/typing/note.tsx:30-34 | null iff untyped; otherwise the type's actions, every one bound to this note and its type |
| Notes.Note.Methods | src/typing/note.tsx:36-40 | null iff untyped; otherwise the type's methods, every one bound to this note and its type |
| Notes.Note.Relations | src/typing/note.tsx:42-46 | null iff untyped; otherwise a view of this note |
| Notes.Note.Fields | src/typing/note.tsx:24-28 | null iff untyped; otherwise the proxy over the note's document, made once and then reused |
| Notes.Note.CurrentFields | src/typing/note.tsx:138-142 | one reading per field of the type, each through the proxy's failure-tolerant read; nothing when untyped |
| Notes.Note.GetState | src/typing/note.tsx:136-144 | reports the title, the prefix and the reading of every field of the type; the proxy exists afterwards iff it did already or the note is typed with at least one field |
| Notes.Note.Rename | src/typing/note.tsx:170-206 | the result, the note's path and the store afterwards are exactly `RenameOutcome` of the request over the path and store before |
| Notes.Note.RenameOutcome | src/typing/note.tsx:170-206 | no stored file: failure and nothing changes. The store refuses an occupied target: failure and nothing changes. Otherwise the file and the note move to the composed target, and ON_RENAME (typed notes only) carries path, filename, fullname and title from before the move |
| Notes.Note.ApplyState | src/typing/note.tsx:147-160 | a null state changes nothing. Otherwise it writes exactly the fields that differ, each once, so the document holds the old values overridden by them, or fails without writing when there is no proxy. Once the writes succeed it renames exactly as `rename({title})` does (`RenameOutcome`) iff the title differs, and leaves path and store alone otherwise. Applying an agreeing state writes nothing and renames nothing |
| Notes.Note.Commit | src/typing/note.tsx:152-159 | given the state read: the writes of the differing fields, with the document's values updated by them, then iff the title differs the outcome of `rename({title})` |
| Notes.Note.WriteDiff | src/typing/note.tsx:152-156 | every differing field is written once through the proxy and the document holds the old values overridden by them; without a proxy, the first differing field fails before anything is written |
| Notes.Note.Retitle | src/typing/note.tsx:157-159 | when the title differs, exactly the outcome of `rename({title})` (`RenameOutcome`); otherwise nothing changes |
| Notes.Note.Super | src/typing/note.tsx:208-227 | an untyped note returns itself; an invalid supertype fails; otherwise a new note at the same path and document bound to the supertype |
| Notes.SuperName | src/typing/note.tsx:210-218 | the given non-empty name; otherwise the single parent's name; with zero or several parents, an error carrying their count |
| Notes.SuperType | src/typing/note.tsx:219-225 | a registered type of that name that the type is an instance of is accepted, and only such a type; an unknown name or an unrelated type fails |
| NoteLemmas.RenameTargetParts | src/typing/note.tsx:185-195 | a composed target's folder, fullname and extension are the requested ones, each unset one taken from the note |
| NoteLemmas.RenameReadsBack | src/typing/note.tsx:102-122 | after a rename to a composed target, the note's folder, prefix, title and extension are the requested ones, provided the prefix rule parses the new name back |
| NoteLemmas.ComposedNameSplits | src/typing/note.tsx:102-122 | the name `trim(prefix + " " + title)` splits back into that prefix and title, through the prefix rule when there is one, and with an empty prefix and a trimmed title when there is none |
| NoteLemmas.RootFolderQuirk | src/typing/note.tsx:185-195 | whenever the folder, requested or the note's own, is `""`, the target is `"/" + filename` with a leading `/`; for a title rename that filename is `trim(prefix + " " + title) + "." + extension` |
| NoteLemmas.StateOf | src/typing/note.tsx:136-144 | the state `getState` reported, as a state to apply: same title and prefix, and the fields that were read, with their values |
| NoteLemmas.ReapplyingStateIsNoop | src/typing/note.tsx:147-160 | applying the state `getState` reported finds no field to write and no title to change |
| NoteLemmas.SuperOfSingleParent | src/typing/note.tsx:210-226 | with no name and a single parent, `super` binds to that parent |
| NoteLemmas.SuperIsSelfOrAncestor | src/typing/note.tsx:219-226 | with unique names, what `super` binds to is the type itself or one of its ancestors |
| NoteLemmas.SuperRejectsUnrelated | src/typing/note.tsx:223-225 | a registered name that is neither the type's own nor an ancestor's is refused as not a supertype |

## Left out

- `src/main.tsx`: plugin lifecycle, commands, workspace UI and configuration reload are not part of this model.
- `src/eval.ts`: evaluation of user scripts is not part of this model.
- `esbuild.config.mjs`: build tooling is not part of this model.
- The UI parts of the core are not modelled: `Link`, `Header`, `Footer`, `open`, and the `Prompt` dialog. The prompt is a parameter `ui` of `PromptNew`.
- `runAction` and `runHook`: the script bodies are foreign code. A fired hook is modelled as an event value, and actions and methods as opaque records.
- `page` and `dvpage`: the dataview page lookup is not modelled.
- The dataview index is modelled as an abstract function from the query string to paths. Its query semantics are not modelled.
- Path matching of the registry by folder and glob is modelled as an abstract function `matchPath`. The front-matter cache is a map from path to the `_type` name.
- `graph.isinstance` is not among the modelled files. `IsInstance` assumes it holds when the names agree or the name is in the ancestor index.
- `Prefix.parse`, the field accessors and the text encoding of a field write are collaborators. They are abstract functions or small classes that assume only what the call sites use.
- `DataClass` inheritance is not among the modelled files. `InheritAll` assumes one merge step per parent in declared order. It assumes that `isAbstract`, `parentNames`, `icon`, `prefix` and `hooks` each take the parent's value when the child leaves them unset. `hooks` falls back as a whole set and is not merged, so a child that declares any hook hides every hook of its parents.
- `mergeDeep` is not among the modelled files. `Types.Type.SeedState` assumes that the initial state's `type`, when set, overrides the seeded `type: this`; that its prefix, title and text are taken as they are; that each initial field overrides the seeded default of that name; and that every other default stays.
- `style` is not modelled, having no behaviour in the core.
- Promises and `async` are treated as sequential steps. The hooks are not awaited, so a failure inside a hook never reaches the caller.
- Notes.Note.Actions, Notes.Note.Methods, Notes.Note.Relations: the lazy caching in `_actions`, `_methods` and `_relations` is not modelled. Each call builds an equal value.
- `Reflect.defineProperty` wiring of the field proxy is reified as keyed `GetValue` and `SetValue`.
- JavaScript object key order is not modelled. Write logs are specified as some enumeration of the map.
- Types.Type.GetAncestor: the ancestor index is a map holding only the recorded names. The source's index is a plain object, so a name inherited from `Object.prototype` (`constructor`, `toString`, …) is found there too. For a type with such a name the source counts every registered type as a subtype in `getAllNotes`, and the model does not.
- Notes.Note.Rename: the note's `document` stays the note's accessor whatever its path. In the source the field proxy builds its accessor from the path at the moment the proxy is made and is then cached, so after a rename it keeps reading and writing through the accessor of the old path.
- The strings are sequences of Unicode characters, where JavaScript counts UTF-16 code units in `lastIndexOf` and `slice`. For a name with a character outside the Basic Multilingual Plane the indices differ: `Paths.NoDotQuirk` drops a whole last character where `slice(0, -1)` would leave half of a surrogate pair.
- Types.Type.Create: a type without folder reports `NoFolder`. The source instead builds the path `null/…` and passes a null folder to the store, whose behaviour is not modelled.
- Types.Type.Create: a store that rejects `create` is reported as `StorageRejected`, and the note handle that `create` returns is represented by its path.
- Types.Type.GetAllNotes: the result is the list of paths. The source wraps each one in a note handle bound to this type.
- Notes.Note.Rename: a rename of a note with no stored file reports `MissingFile`, where the source fails dereferencing the missing file. A refused store rename reports `StorageRejected`.
- Notes.FieldsProxy.SetValue and the accessor writes cannot fail in the model, because the accessor's write errors are not visible in the core.
- The `title` and `state` setters only forward to `rename` and `applyState` and are not modelled separately.
- Notes.Note.ApplyState: newState's `prefix` and `text` are ignored, as in the source. An absent `fields` is the empty map.
