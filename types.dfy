/**
 * A type of the typing layer: a node of the multi-parent inheritance graph.
 * Its attributes are fixed once the graph is built, except the field map,
 * which `rebindFields` rebinds to the type in place, and the ancestor index,
 * which `indexAncestors` fills in place by walking the parents.
 */
module Types {
  import opened Wrappers
  import opened Strings
  import opened Paths
  import opened Env

  datatype HookName = Create

  /** An action or method of a type; its script is foreign code and is not interpreted. */
  datatype Action = Action(name: string, script: string)
  datatype Method = Method(name: string, script: string)

  /** A field of a type: its default value and the type it is bound to. */
  datatype Field = Field(name: string, default: string, owner: Option<Type>)

  /** `field.bind({type: t})`: the same field, bound to `t`. */
  function BindField(f: Field, t: Type): (r: Field)
    ensures r.name == f.name && r.default == f.default && r.owner == Some(t)
  {
    f.(owner := Some(t))
  }

  /** The failures the type and note operations report. */
  datatype Error =
    | NotCreateable                 // getAllNotes on a type without folder
    | NoFolder                      // create on a type without folder
    | FolderIsFile(folder: string)  // a type folder that the store holds as a file
    | StorageRejected(path: string) // the store refused a create or a rename
    | MissingFile(path: string)     // rename of a note whose path holds no file
    | AmbiguousParent(count: nat)   // super() without a name on a type without exactly one parent
    | UnknownType(name: string)     // super(name) naming no type
    | NotASupertype(name: string)   // super(name) naming a type that is not the type or an ancestor
    | NoFieldsProxy                 // applyState writing through a field proxy never created

  /** What a note is, or is to be, made of: the NoteState record. */
  datatype NoteState = NoteState(
    stateType: Option<Type>,
    prefix: Option<string>,
    title: Option<string>,
    fields: map<string, string>,
    text: Option<string>)

  const EmptyState := NoteState(None, None, None, map[], None)

  /**
   * The hook events a type fires: CREATE carries the seeded state; ON_CREATE
   * carries the new note's path and the type whose hook runs, the new note's own.
   */
  datatype TypeEvent =
    | CreateRequested(requester: Type, state: NoteState)
    | Created(path: string, noteType: Type)

  // ---------------------------------------------------------------------
  // Inheritance merge
  // ---------------------------------------------------------------------

  /** `{...inherited, ...own}`: the merge rule of fields, actions and methods. */
  function MergeMaps<V>(own: map<string, V>, inherited: map<string, V>): (r: map<string, V>)
    ensures r.Keys == own.Keys + inherited.Keys
    ensures forall k :: k in own ==> r[k] == own[k]
    ensures forall k :: k in inherited && k !in own ==> r[k] == inherited[k]
  {
    inherited + own
  }

  /** `a` if it is set, else `b`: how an inheriting attribute falls back to the parent. */
  function OrElse<T>(a: Option<T>, b: Option<T>): (r: Option<T>)
    ensures a.Some? ==> r == a
    ensures a.None? ==> r == b
  {
    if a.Some? then a else b
  }

  /** A type's attributes as declared, `None` where the declaration leaves one unset. */
  datatype TypeSpec = TypeSpec(
    name: string,
    isAbstract: Option<bool>,
    parentNames: Option<seq<string>>,
    parents: seq<Type>,
    folder: Option<string>,
    glob: Option<string>,
    icon: Option<string>,
    prefix: Option<Prefix>,
    hooks: Option<set<HookName>>,
    fields: map<string, Field>,
    actions: map<string, Action>,
    methods: map<string, Method>)

  /**
   * One inheritance step from `parent` into `child`: `parents`, `folder` and
   * `glob` are never inherited; the three maps merge with the child's entries
   * winning; every other attribute falls back to the parent's when unset.
   */
  function InheritFrom(child: TypeSpec, parent: TypeSpec): (r: TypeSpec)
    ensures r.name == child.name
    ensures r.parents == child.parents && r.folder == child.folder && r.glob == child.glob
    ensures r.fields.Keys == child.fields.Keys + parent.fields.Keys
    ensures r.actions.Keys == child.actions.Keys + parent.actions.Keys
    ensures r.methods.Keys == child.methods.Keys + parent.methods.Keys
    ensures forall k :: k in child.fields ==> r.fields[k] == child.fields[k]
    ensures forall k :: k in parent.fields && k !in child.fields ==> r.fields[k] == parent.fields[k]
    ensures forall k :: k in child.actions ==> r.actions[k] == child.actions[k]
    ensures forall k :: k in parent.actions && k !in child.actions ==> r.actions[k] == parent.actions[k]
    ensures forall k :: k in child.methods ==> r.methods[k] == child.methods[k]
    ensures forall k :: k in parent.methods && k !in child.methods ==> r.methods[k] == parent.methods[k]
    ensures r.isAbstract == OrElse(child.isAbstract, parent.isAbstract)
    ensures r.parentNames == OrElse(child.parentNames, parent.parentNames)
    ensures r.icon == OrElse(child.icon, parent.icon)
    ensures r.prefix == OrElse(child.prefix, parent.prefix)
    ensures r.hooks == OrElse(child.hooks, parent.hooks)
  {
    TypeSpec(
      child.name,
      OrElse(child.isAbstract, parent.isAbstract),
      OrElse(child.parentNames, parent.parentNames),
      child.parents,
      child.folder,
      child.glob,
      OrElse(child.icon, parent.icon),
      OrElse(child.prefix, parent.prefix),
      OrElse(child.hooks, parent.hooks),
      MergeMaps(child.fields, parent.fields),
      MergeMaps(child.actions, parent.actions),
      MergeMaps(child.methods, parent.methods))
  }

  /** Inheritance from every parent in declared order, one step per parent. */
  function InheritAll(child: TypeSpec, parents: seq<TypeSpec>): TypeSpec
    decreases |parents|
  {
    if parents == [] then child else InheritAll(InheritFrom(child, parents[0]), parents[1..])
  }

  /** The non-inheriting attributes keep the child's own values through any number of parents. */
  lemma {:induction false} InheritAllKeepsOwn(child: TypeSpec, parents: seq<TypeSpec>)
    ensures InheritAll(child, parents).name == child.name
    ensures InheritAll(child, parents).parents == child.parents
    ensures InheritAll(child, parents).folder == child.folder
    ensures InheritAll(child, parents).glob == child.glob
    decreases |parents|
  {
    if parents != [] {
      InheritAllKeepsOwn(InheritFrom(child, parents[0]), parents[1..]);
    }
  }

  /**
   * Falling back from `a` to the first of `xs` and then searching the rest is
   * searching `a` and then all of `xs`: one fallback step per parent
   * composes into a chain of `??`.
   */
  lemma OrElseFirst<T>(a: Option<T>, xs: seq<Option<T>>)
    requires xs != []
    ensures FirstSome([OrElse(a, xs[0])] + xs[1..]) == FirstSome([a] + xs)
  {
    assert ([a] + xs)[1..] == xs;
    assert ([OrElse(a, xs[0])] + xs[1..])[1..] == xs[1..];
  }

  /**
   * The merged `prefix` is the child's own when set, otherwise that of the
   * first parent, in declared order, that sets one.
   */
  lemma {:induction false} InheritAllPrefix(child: TypeSpec, parents: seq<TypeSpec>)
    ensures InheritAll(child, parents).prefix ==
              FirstSome([child.prefix] + seq(|parents|, i requires 0 <= i < |parents| => parents[i].prefix))
    decreases |parents|
  {
    if parents == [] {
      assert [child.prefix] + seq(|parents|, i requires 0 <= i < |parents| => parents[i].prefix) == [child.prefix];
    } else {
      var xs := seq(|parents|, i requires 0 <= i < |parents| => parents[i].prefix);
      InheritAllPrefix(InheritFrom(child, parents[0]), parents[1..]);
      assert seq(|parents[1..]|, i requires 0 <= i < |parents[1..]| => parents[1..][i].prefix) == xs[1..];
      OrElseFirst(child.prefix, xs);
    }
  }

  /**
   * The merged `hooks` is the child's own set when declared, otherwise the
   * whole set of the first parent, in declared order, that declares one:
   * hook sets replace each other and are never merged.
   */
  lemma {:induction false} InheritAllHooks(child: TypeSpec, parents: seq<TypeSpec>)
    ensures InheritAll(child, parents).hooks ==
              FirstSome([child.hooks] + seq(|parents|, i requires 0 <= i < |parents| => parents[i].hooks))
    decreases |parents|
  {
    if parents == [] {
      assert [child.hooks] + seq(|parents|, i requires 0 <= i < |parents| => parents[i].hooks) == [child.hooks];
    } else {
      var xs := seq(|parents|, i requires 0 <= i < |parents| => parents[i].hooks);
      InheritAllHooks(InheritFrom(child, parents[0]), parents[1..]);
      assert seq(|parents[1..]|, i requires 0 <= i < |parents[1..]| => parents[1..][i].hooks) == xs[1..];
      OrElseFirst(child.hooks, xs);
    }
  }

  /** The merged `isAbstract` is the child's own when set, otherwise the first parent's in order that sets it. */
  lemma {:induction false} InheritAllIsAbstract(child: TypeSpec, parents: seq<TypeSpec>)
    ensures InheritAll(child, parents).isAbstract ==
              FirstSome([child.isAbstract] + seq(|parents|, i requires 0 <= i < |parents| => parents[i].isAbstract))
    decreases |parents|
  {
    if parents == [] {
      assert [child.isAbstract] + seq(|parents|, i requires 0 <= i < |parents| => parents[i].isAbstract) == [child.isAbstract];
    } else {
      var xs := seq(|parents|, i requires 0 <= i < |parents| => parents[i].isAbstract);
      InheritAllIsAbstract(InheritFrom(child, parents[0]), parents[1..]);
      assert seq(|parents[1..]|, i requires 0 <= i < |parents[1..]| => parents[1..][i].isAbstract) == xs[1..];
      OrElseFirst(child.isAbstract, xs);
    }
  }

  /** The merged `parentNames` is the child's own when set, otherwise the first parent's in order that sets it. */
  lemma {:induction false} InheritAllParentNames(child: TypeSpec, parents: seq<TypeSpec>)
    ensures InheritAll(child, parents).parentNames ==
              FirstSome([child.parentNames] + seq(|parents|, i requires 0 <= i < |parents| => parents[i].parentNames))
    decreases |parents|
  {
    if parents == [] {
      assert [child.parentNames] + seq(|parents|, i requires 0 <= i < |parents| => parents[i].parentNames) == [child.parentNames];
    } else {
      var xs := seq(|parents|, i requires 0 <= i < |parents| => parents[i].parentNames);
      InheritAllParentNames(InheritFrom(child, parents[0]), parents[1..]);
      assert seq(|parents[1..]|, i requires 0 <= i < |parents[1..]| => parents[1..][i].parentNames) == xs[1..];
      OrElseFirst(child.parentNames, xs);
    }
  }

  /** The merged `icon` is the child's own when set, otherwise the first parent's in order that sets it. */
  lemma {:induction false} InheritAllIcon(child: TypeSpec, parents: seq<TypeSpec>)
    ensures InheritAll(child, parents).icon ==
              FirstSome([child.icon] + seq(|parents|, i requires 0 <= i < |parents| => parents[i].icon))
    decreases |parents|
  {
    if parents == [] {
      assert [child.icon] + seq(|parents|, i requires 0 <= i < |parents| => parents[i].icon) == [child.icon];
    } else {
      var xs := seq(|parents|, i requires 0 <= i < |parents| => parents[i].icon);
      InheritAllIcon(InheritFrom(child, parents[0]), parents[1..]);
      assert seq(|parents[1..]|, i requires 0 <= i < |parents[1..]| => parents[1..][i].icon) == xs[1..];
      OrElseFirst(child.icon, xs);
    }
  }

  /**
   * The merged field map: its keys are the child's and every parent's; a key
   * the child defines keeps the child's entry; any other key takes the entry
   * of the first parent, in declared order, that defines it.
   */
  lemma InheritAllFields(child: TypeSpec, parents: seq<TypeSpec>, k: string)
    ensures k in InheritAll(child, parents).fields <==>
              k in child.fields || exists i :: 0 <= i < |parents| && k in parents[i].fields
    ensures k in child.fields ==> InheritAll(child, parents).fields[k] == child.fields[k]
    ensures forall i :: (0 <= i < |parents| && k !in child.fields && k in parents[i].fields &&
                         (forall j :: 0 <= j < i ==> k !in parents[j].fields)) ==>
              InheritAll(child, parents).fields[k] == parents[i].fields[k]
  {
    InheritAllFieldKeys(child, parents, k);
    if k in child.fields {
      InheritAllOwnField(child, parents, k);
    }
    forall i | 0 <= i < |parents| && k !in child.fields && k in parents[i].fields &&
               (forall j :: 0 <= j < i ==> k !in parents[j].fields)
      ensures InheritAll(child, parents).fields[k] == parents[i].fields[k]
    {
      InheritAllParentField(child, parents, k, i);
    }
  }

  lemma {:induction false} InheritAllFieldKeys(child: TypeSpec, parents: seq<TypeSpec>, k: string)
    ensures k in InheritAll(child, parents).fields <==>
              k in child.fields || exists i :: 0 <= i < |parents| && k in parents[i].fields
    decreases |parents|
  {
    if parents != [] {
      var c := InheritFrom(child, parents[0]);
      InheritAllFieldKeys(c, parents[1..], k);
      if exists i :: 0 <= i < |parents[1..]| && k in parents[1..][i].fields {
        var i :| 0 <= i < |parents[1..]| && k in parents[1..][i].fields;
        assert parents[1..][i] == parents[i + 1];
      }
      if exists i :: 0 <= i < |parents| && k in parents[i].fields {
        var i :| 0 <= i < |parents| && k in parents[i].fields;
        if i > 0 {
          assert parents[1..][i - 1] == parents[i];
        }
      }
    }
  }

  lemma {:induction false} InheritAllOwnField(child: TypeSpec, parents: seq<TypeSpec>, k: string)
    requires k in child.fields
    ensures k in InheritAll(child, parents).fields && InheritAll(child, parents).fields[k] == child.fields[k]
    decreases |parents|
  {
    if parents != [] {
      InheritAllOwnField(InheritFrom(child, parents[0]), parents[1..], k);
    }
  }

  lemma {:induction false} InheritAllParentField(child: TypeSpec, parents: seq<TypeSpec>, k: string, i: nat)
    requires i < |parents| && k !in child.fields && k in parents[i].fields
    requires forall j :: 0 <= j < i ==> k !in parents[j].fields
    ensures k in InheritAll(child, parents).fields && InheritAll(child, parents).fields[k] == parents[i].fields[k]
    decreases |parents|
  {
    var c := InheritFrom(child, parents[0]);
    if i == 0 {
      InheritAllOwnField(c, parents[1..], k);
    } else {
      assert parents[1..][i - 1] == parents[i];
      assert forall j :: 0 <= j < i - 1 ==> k !in parents[1..][j].fields by {
        assert forall j :: 0 <= j < i - 1 ==> parents[1..][j] == parents[j + 1];
      }
      InheritAllParentField(c, parents[1..], k, i - 1);
    }
  }

  // ---------------------------------------------------------------------
  // The type node
  // ---------------------------------------------------------------------

  /** The largest depth among `ps`, 0 when there are none. */
  function MaxDepth(ps: seq<Type>): (r: nat)
    ensures forall i :: 0 <= i < |ps| ==> ps[i].depth <= r
  {
    if ps == [] then 0
    else
      var m := MaxDepth(ps[..|ps| - 1]);
      assert forall i :: 0 <= i < |ps| - 1 ==> ps[..|ps| - 1][i] == ps[i];
      if ps[|ps| - 1].depth > m then ps[|ps| - 1].depth else m
  }

  class Type {
    const name: string
    const isAbstract: bool
    const parentNames: seq<string>
    const parents: seq<Type>
    const folder: Option<string>
    const glob: Option<string>
    const icon: Option<string>
    const prefix: Option<Prefix>
    const hooks: set<HookName>
    const actions: map<string, Action>
    const methods: map<string, Method>
    /** One more than the deepest parent: parents exist before their children, so the graph is acyclic. */
    const depth: nat
    var fields: map<string, Field>
    var ancestors: map<string, Type>

    /** Every parent, transitively, lies strictly deeper down. */
    ghost predicate Ranked()
      decreases depth
    {
      forall i :: 0 <= i < |parents| ==> parents[i].depth < depth && parents[i].Ranked()
    }

    /**
     * A type built from its (inherited) declaration. As `onAfterCreate` runs on
     * creation, its fields come out bound to it; its ancestors are not indexed yet.
     */
    constructor (spec: TypeSpec)
      requires forall i :: 0 <= i < |spec.parents| ==> spec.parents[i].Ranked()
      ensures Ranked()
      ensures name == spec.name && isAbstract == spec.isAbstract.GetOr(false)
      ensures parentNames == spec.parentNames.GetOr([]) && parents == spec.parents
      ensures folder == spec.folder && glob == spec.glob && icon == spec.icon && prefix == spec.prefix
      ensures hooks == spec.hooks.GetOr({}) && actions == spec.actions && methods == spec.methods
      ensures fields.Keys == spec.fields.Keys && ancestors == map[]
      ensures forall k :: k in fields ==> fields[k] == BindField(spec.fields[k], this)
    {
      name := spec.name;
      isAbstract := spec.isAbstract.GetOr(false);
      parentNames := spec.parentNames.GetOr([]);
      parents := spec.parents;
      folder := spec.folder;
      glob := spec.glob;
      icon := spec.icon;
      prefix := spec.prefix;
      hooks := spec.hooks.GetOr({});
      actions := spec.actions;
      methods := spec.methods;
      depth := MaxDepth(spec.parents) + 1;
      ancestors := map[];
      new;
      fields := map k | k in spec.fields :: BindField(spec.fields[k], this);
    }

    /** `isCreateable`: the type has a folder to create its notes in. */
    predicate IsCreateable() {
      folder.Some?
    }

    /** `getAncestor(name)`: the indexed ancestor of that name, if any. */
    function GetAncestor(n: string): (r: Option<Type>)
      reads this
      ensures r.Some? <==> n in ancestors
      ensures r.Some? ==> r.value == ancestors[n]
    {
      if n in ancestors then Some(ancestors[n]) else None
    }

    /** The ancestor index is exactly what `indexAncestors` builds from an empty index. */
    ghost predicate Indexed()
      reads this
    {
      Ranked() && ancestors == IndexList(map[], parents, depth)
    }

    /** `rebindFields`: every field, same keys, bound to this type. */
    method RebindFields()
      modifies this`fields
      ensures fields.Keys == old(fields).Keys
      ensures forall k :: k in fields ==> fields[k] == BindField(old(fields)[k], this)
    {
      var keys := fields.Keys;
      ghost var orig := fields;
      while keys != {}
        invariant keys <= orig.Keys
        invariant fields.Keys == orig.Keys
        invariant forall k :: k in orig ==> fields[k] == if k in keys then orig[k] else BindField(orig[k], this)
        decreases keys
      {
        var k :| k in keys;
        fields := fields[k := BindField(fields[k], this)];
        keys := keys - {k};
      }
    }

    /**
     * `indexAncestors(t)`: for each parent of `t` in order, record it under its
     * name and then index its own parents, depth first.
     */
    method IndexAncestors(t: Type)
      requires t.Ranked()
      modifies this`ancestors
      ensures ancestors == IndexList(old(ancestors), t.parents, t.depth)
      decreases t.depth
    {
      var i := 0;
      while i < |t.parents|
        invariant 0 <= i <= |t.parents|
        invariant ancestors == IndexList(old(ancestors), t.parents[..i], t.depth)
      {
        var p := t.parents[i];
        ancestors := ancestors[p.name := p];
        IndexAncestors(p);
        assert t.parents[..i + 1][..i] == t.parents[..i];
        i := i + 1;
      }
      assert t.parents[..|t.parents|] == t.parents;
    }

    /** `onAfterInherit`: bind the fields, then index the ancestors of this type. */
    method OnAfterInherit()
      requires Ranked()
      modifies this`fields, this`ancestors
      ensures ancestors == IndexList(old(ancestors), parents, depth)
      ensures old(ancestors) == map[] ==> Indexed()
      ensures fields.Keys == old(fields).Keys
      ensures forall k :: k in fields ==> fields[k] == BindField(old(fields)[k], this)
    {
      RebindFields();
      IndexAncestors(this);
    }

    /** The state `promptNew` starts from: every field at its default, overridden by `initial`. */
    function SeedState(initial: Option<NoteState>): (s: NoteState)
      reads this
      ensures s.fields.Keys == fields.Keys + initial.GetOr(EmptyState).fields.Keys
      ensures forall k :: k in initial.GetOr(EmptyState).fields ==> s.fields[k] == initial.GetOr(EmptyState).fields[k]
      ensures forall k :: k in fields && k !in initial.GetOr(EmptyState).fields ==> s.fields[k] == fields[k].default
      ensures s.stateType == OrElse(initial.GetOr(EmptyState).stateType, Some(this))
      ensures s.prefix == initial.GetOr(EmptyState).prefix && s.title == initial.GetOr(EmptyState).title
      ensures s.text == initial.GetOr(EmptyState).text
    {
      var i := initial.GetOr(EmptyState);
      NoteState(OrElse(i.stateType, Some(this)), i.prefix, i.title,
                MergeMaps(i.fields, map k | k in fields :: fields[k].default), i.text)
    }

    /**
     * `promptNew`: seed every field with its default; with a CREATE hook, fire
     * it with the seeded state and return nothing, else return what the prompt
     * (`ui`) answers for the seeded state.
     */
    method PromptNew(initial: Option<NoteState>, ui: NoteState -> Option<NoteState>)
      returns (r: Option<NoteState>, fired: Option<TypeEvent>)
      ensures HookName.Create in hooks ==> r.None? && fired == Some(CreateRequested(this, SeedState(initial)))
      ensures HookName.Create !in hooks ==> fired.None? && r == ui(SeedState(initial))
    {
      var init := initial.GetOr(EmptyState);
      var defaults: map<string, string> := map[];
      var keys := fields.Keys;
      while keys != {}
        invariant keys <= fields.Keys
        invariant defaults.Keys == fields.Keys - keys
        invariant forall k :: k in defaults ==> defaults[k] == fields[k].default
        decreases keys
      {
        var k :| k in keys;
        defaults := defaults[k := fields[k].default];
        keys := keys - {k};
      }
      assert defaults == map k | k in fields :: fields[k].default;
      var state := NoteState(OrElse(init.stateType, Some(this)), init.prefix, init.title,
                             MergeMaps(init.fields, defaults), init.text);
      if HookName.Create in hooks {
        r, fired := None, Some(CreateRequested(this, state));
        return;
      }
      r, fired := ui(state), None;
    }

    /**
     * `create`: nothing for no state; otherwise compose the content by writing
     * every state field through a buffer accessor over `text ?? ""`, create the
     * folder when the store lacks it, store the document, and fire ON_CREATE on
     * the type the new note's handle resolves to; an untyped handle fires nothing.
     */
    method Create(state: Option<NoteState>, vault: Vault, codec: Codec, g: Graph, frontmatter: map<string, string>)
      returns (r: Result<Option<string>, Error>, writes: seq<(string, string)>, fired: Option<TypeEvent>)
      modifies vault
      ensures state.None? || folder.None? ==> writes == [] && fired.None? && vault.entries == old(vault.entries)
      ensures state.None? ==> r == Ok(None)
      ensures state.Some? && folder.None? ==> r == Err(NoFolder)
      ensures state.Some? && folder.Some? ==>
        var path := CreatePath(folder.value, state.value);
        var base := if folder.value in old(vault.entries) then old(vault.entries)
                    else old(vault.entries)[folder.value := FolderEntry];
        && Enumerates(writes, state.value.fields)
        && (path !in base ==>
              && r == Ok(Some(path))
              && vault.entries == base[path := FileEntry(ApplyWrites(codec, state.value.text.GetOr(""), writes))]
              && (fired.Some? <==> NewNoteType(path, g, frontmatter).Some?)
              && (fired.Some? ==> fired.value == Created(path, NewNoteType(path, g, frontmatter).value)))
        && (path in base ==> r == Err(StorageRejected(path)) && vault.entries == base && fired.None?)
    {
      writes, fired := [], None;
      if state.None? {
        return Ok(None), writes, fired;
      }
      var s := state.value;
      if !IsCreateable() {
        return Err(NoFolder), writes, fired;
      }
      var content;
      content, writes := ComposeContent(s, codec);
      var path := CreatePath(folder.value, s);
      if vault.Lookup(folder).None? {
        vault.CreateFolder(folder.value);
      }
      var ok := vault.Create(path, content);
      if !ok {
        return Err(StorageRejected(path)), writes, fired;
      }
      r := Ok(Some(path));
      var nt := NewNoteType(path, g, frontmatter);
      if nt.Some? {
        fired := Some(Created(path, nt.value));
      }
    }

    /** The folders `getAllNotes` searches, in insertion order. */
    function SearchFolders(withSubtypes: bool, types: seq<Type>): seq<Option<string>>
      reads set i | 0 <= i < |types| :: types[i]
    {
      if withSubtypes then SubtypeFolders([folder], name, types) else [folder]
    }

    /**
     * `getAllNotes`: the notes stored directly in the folders to search, or,
     * with the index `dv`, whatever it answers for the query over them.
     * Fails for a type without folder and for a search folder stored as a file.
     */
    method GetAllNotes(withSubtypes: bool, g: Graph, dv: Option<string -> seq<string>>, vault: Vault)
      returns (r: Result<seq<string>, Error>)
      ensures folder.None? ==> r == Err(NotCreateable)
      ensures folder.Some? && dv.Some? ==> r == Ok(dv.value(FolderQuery(SearchFolders(withSubtypes, g.types))))
      ensures folder.Some? && dv.None? ==>
        var fs := SearchFolders(withSubtypes, g.types);
        && (r.Err? <==> exists i :: 0 <= i < |fs| && fs[i].Some? && vault.IsFile(fs[i].value))
        && (r.Err? ==> exists i :: 0 <= i < |fs| && FirstFileFolder(vault, fs, i) && r.error == FolderIsFile(fs[i].value))
        && (r.Ok? ==> NoDuplicates(r.value))
        && (r.Ok? ==> forall p :: p in r.value <==> exists i :: 0 <= i < |fs| && FolderPaths(vault, fs[i], p))
    {
      if !IsCreateable() {
        return Err(NotCreateable);
      }
      var folders := [folder];
      if withSubtypes {
        var i := 0;
        while i < |g.types|
          invariant 0 <= i <= |g.types|
          invariant folders == SubtypeFolders([folder], name, g.types[..i])
        {
          if g.types[i].GetAncestor(name).Some? {
            folders := AddUnique(folders, g.types[i].folder);
          }
          assert g.types[..i + 1][..i] == g.types[..i];
          i := i + 1;
        }
        assert g.types[..i] == g.types;
      }
      assert folders == SearchFolders(withSubtypes, g.types);
      if dv.Some? {
        return Ok(dv.value(FolderQuery(folders)));
      }
      r := CollectPaths(folders, vault);
      assert folders == SearchFolders(withSubtypes, g.types);
      assert r.Err? <==> exists i :: 0 <= i < |folders| && folders[i].Some? && vault.IsFile(folders[i].value);
    }
  }

  /**
   * The content `create` composes: every field of the state written once,
   * through a buffer accessor, into `text ?? ""`.
   */
  method ComposeContent(s: NoteState, codec: Codec) returns (content: string, writes: seq<(string, string)>)
    ensures Enumerates(writes, s.fields)
    ensures content == ApplyWrites(codec, s.text.GetOr(""), writes)
  {
    var buffer := new Buffer(s.text.GetOr(""), codec);
    var keys := s.fields.Keys;
    while keys != {}
      invariant keys <= s.fields.Keys
      invariant buffer.codec == codec
      invariant WrittenKeys(buffer.writes) == s.fields.Keys - keys
      invariant forall i :: 0 <= i < |buffer.writes| ==> buffer.writes[i].0 in s.fields && buffer.writes[i].1 == s.fields[buffer.writes[i].0]
      invariant forall i, j :: 0 <= i < j < |buffer.writes| ==> buffer.writes[i].0 != buffer.writes[j].0
      invariant buffer.content == ApplyWrites(codec, s.text.GetOr(""), buffer.writes)
      decreases keys
    {
      var k :| k in keys;
      ApplyWritesSnoc(codec, s.text.GetOr(""), buffer.writes, (k, s.fields[k]));
      WrittenKeysSnoc(buffer.writes, (k, s.fields[k]));
      buffer.SetValue(k, s.fields[k]);
      keys := keys - {k};
    }
    writes := buffer.writes;
    content := buffer.content;
  }

  /**
   * The non-index branch of `getAllNotes`: the `md` files stored directly in
   * each search folder, skipping folders the store lacks, failing on the first
   * search folder stored as a file.
   */
  method CollectPaths(folders: seq<Option<string>>, vault: Vault) returns (r: Result<seq<string>, Error>)
    ensures r.Err? <==> exists i :: 0 <= i < |folders| && folders[i].Some? && vault.IsFile(folders[i].value)
    ensures r.Err? ==> exists i :: 0 <= i < |folders| && FirstFileFolder(vault, folders, i) && r.error == FolderIsFile(folders[i].value)
    ensures r.Ok? ==> NoDuplicates(r.value)
    ensures r.Ok? ==> forall p :: p in r.value <==> exists i :: 0 <= i < |folders| && FolderPaths(vault, folders[i], p)
  {
    var paths: seq<string> := [];
    var j := 0;
    while j < |folders|
      invariant 0 <= j <= |folders|
      invariant forall i :: 0 <= i < j && folders[i].Some? ==> !vault.IsFile(folders[i].value)
      invariant NoDuplicates(paths)
      invariant forall p :: p in paths <==> exists i :: 0 <= i < j && FolderPaths(vault, folders[i], p)
    {
      var entry := vault.Lookup(folders[j]);
      if entry.Some? && entry.value.FileEntry? {
        assert FirstFileFolder(vault, folders, j);
        return Err(FolderIsFile(folders[j].value));
      }
      ghost var before := paths;
      if entry.Some? {
        paths := AddAll(paths, vault.MarkdownChildren(folders[j].value));
      }
      forall p ensures p in paths <==> exists i :: 0 <= i < j + 1 && FolderPaths(vault, folders[i], p) {
        if p in paths && p !in before {
          assert FolderPaths(vault, folders[j], p);
        }
        if exists i :: 0 <= i < j + 1 && FolderPaths(vault, folders[i], p) {
          var i :| 0 <= i < j + 1 && FolderPaths(vault, folders[i], p);
          if i == j {
            assert p in paths;
          } else {
            assert p in before;
          }
        }
      }
      j := j + 1;
    }
    return Ok(paths);
  }

  /** `forEach(p => paths.add(p))` over the elements of `children`, in some order. */
  method AddAll(paths: seq<string>, children: set<string>) returns (r: seq<string>)
    ensures NoDuplicates(paths) ==> NoDuplicates(r)
    ensures forall p :: p in r <==> p in paths || p in children
  {
    r := paths;
    var rest := children;
    while rest != {}
      invariant NoDuplicates(paths) ==> NoDuplicates(r)
      invariant rest <= children
      invariant forall p :: p in r <==> p in paths || (p in children && p !in rest)
      decreases rest
    {
      var p :| p in rest;
      r := AddUnique(r, p);
      rest := rest - {p};
    }
  }

  /** The `i`-th search folder is the first one the store holds as a file. */
  ghost predicate FirstFileFolder(vault: Vault, folders: seq<Option<string>>, i: nat)
    requires i < |folders|
    reads vault
  {
    && folders[i].Some? && vault.IsFile(folders[i].value)
    && forall j :: 0 <= j < i && folders[j].Some? ==> !vault.IsFile(folders[j].value)
  }

  /** Whether `p` is a path `getAllNotes` collects from the search folder `f`. */
  ghost predicate FolderPaths(vault: Vault, f: Option<string>, p: string)
    reads vault
  {
    f.Some? && vault.Lookup(f) == Some(FolderEntry) && p in vault.MarkdownChildren(f.value)
  }

  /** `new Set(...)` semantics: the elements of `s` are distinct. */
  predicate NoDuplicates<T(==)>(s: seq<T>) {
    forall i, j :: 0 <= i < j < |s| ==> s[i] != s[j]
  }

  /** `set.add(x)` on an insertion-ordered set. */
  function AddUnique<T(==,!new)>(s: seq<T>, x: T): (r: seq<T>)
    ensures NoDuplicates(s) ==> NoDuplicates(r)
    ensures forall y :: y in r <==> y in s || y == x
    ensures |s| <= |r| && r[..|s|] == s
  {
    if x in s then s else s + [x]
  }

  /** The folders collected after scanning `types`: those of types that have `name` as an ancestor. */
  function SubtypeFolders(start: seq<Option<string>>, name: string, types: seq<Type>): seq<Option<string>>
    reads set i | 0 <= i < |types| :: types[i]
    decreases |types|
  {
    if types == [] then start
    else
      var prev := SubtypeFolders(start, name, types[..|types| - 1]);
      var t := types[|types| - 1];
      if t.GetAncestor(name).Some? then AddUnique(prev, t.folder) else prev
  }

  /** The text a folder takes in a template literal: a null folder prints as `null`. */
  function FolderText(f: Option<string>): string {
    if f.Some? then f.value else "null"
  }

  /** The index query `"f1" OR "f2" OR …` over the search folders. */
  function FolderQuery(fs: seq<Option<string>>): string
    decreases |fs|
  {
    if fs == [] then ""
    else if |fs| == 1 then "\"" + FolderText(fs[0]) + "\""
    else "\"" + FolderText(fs[0]) + "\" OR " + FolderQuery(fs[1..])
  }

  /** The path `create` stores a new note at: `folder/trim(prefix + " " + title).md`. */
  function CreatePath(folder: string, s: NoteState): string {
    folder + "/" + (Trim(s.prefix.GetOr("") + " " + s.title.GetOr("")) + "." + "md")
  }

  // ---------------------------------------------------------------------
  // The graph and the ancestor index
  // ---------------------------------------------------------------------

  /** The registry: its types in declaration order, and the folder/glob path match (not modelled). */
  datatype Graph = Graph(types: seq<Type>, matchPath: string -> Option<Type>) {
    /** `get({name})`. */
    function Get(n: string): (r: Option<Type>)
      ensures r.Some? ==> r.value in types && r.value.name == n
      ensures r.None? <==> forall i :: 0 <= i < |types| ==> types[i].name != n
    {
      FindByName(types, n)
    }
  }

  /** The ways the constructor looks a type up, in the order it tries them. */
  function Candidates(path: string, explicit: Option<Type>, g: Graph, frontmatter: map<string, string>, isFile: bool)
    : seq<Option<Type>>
  {
    [ explicit,
      g.matchPath(path),
      if isFile && path in frontmatter && frontmatter[path] != "" then g.Get(frontmatter[path]) else None,
      g.Get("default") ]
  }

  /**
   * The type a note handle made for a newly stored `path`, with no explicit
   * type, resolves to (the file now exists, so its front matter is consulted).
   */
  function NewNoteType(path: string, g: Graph, frontmatter: map<string, string>): Option<Type> {
    FirstSome(Candidates(path, None, g, frontmatter, true))
  }

  /** The first type of `types` named `n`. */
  function FindByName(types: seq<Type>, n: string): (r: Option<Type>)
    ensures r.Some? ==> r.value in types && r.value.name == n
    ensures r.None? <==> forall i :: 0 <= i < |types| ==> types[i].name != n
  {
    if types == [] then None
    else if types[0].name == n then Some(types[0])
    else
      var r := FindByName(types[1..], n);
      assert forall i :: 1 <= i < |types| ==> types[i] == types[1..][i - 1];
      r
  }

  /** `isinstance(t, a)`: `a` is `t` itself by name, or an indexed ancestor of `t`. */
  predicate IsInstance(t: Type, a: Type)
    reads t
  {
    a.name == t.name || a.name in t.ancestors
  }

  ghost predicate AllRanked(ps: seq<Type>, d: nat) {
    forall i :: 0 <= i < |ps| ==> ps[i].depth < d && ps[i].Ranked()
  }

  /** The types reachable from `ps` through zero or more parent links. */
  ghost function Reach(ps: seq<Type>, d: nat): set<Type>
    requires AllRanked(ps, d)
    decreases d, |ps|
  {
    if ps == [] then {}
    else
      var last := ps[|ps| - 1];
      Reach(ps[..|ps| - 1], d) + {last} + Reach(last.parents, last.depth)
  }

  /** The ancestors of `t`: every type reachable through one or more parent links. */
  ghost function Ancestors(t: Type): set<Type>
    requires t.Ranked()
  {
    Reach(t.parents, t.depth)
  }

  ghost function Names(s: set<Type>): set<string> {
    set x | x in s :: x.name
  }

  /** The index `indexAncestors` builds into `acc` by walking `ps` depth first. */
  ghost function IndexList(acc: map<string, Type>, ps: seq<Type>, d: nat): map<string, Type>
    requires AllRanked(ps, d)
    decreases d, |ps|
  {
    if ps == [] then acc
    else
      var last := ps[|ps| - 1];
      IndexList(IndexList(acc, ps[..|ps| - 1], d)[last.name := last], last.parents, last.depth)
  }
}

module TypeLemmas {
  import opened Wrappers
  import opened Strings
  import opened Paths
  import opened Env
  import opened Types

  /** Everything reachable from `ps` lies below depth `d` and is itself ranked. */
  lemma {:induction false} ReachBelow(ps: seq<Type>, d: nat)
    requires AllRanked(ps, d)
    ensures forall x :: x in Reach(ps, d) ==> x.depth < d && x.Ranked()
    decreases d, |ps|
  {
    if ps != [] {
      var last := ps[|ps| - 1];
      ReachBelow(ps[..|ps| - 1], d);
      ReachBelow(last.parents, last.depth);
    }
  }

  /** A type is never its own ancestor. */
  lemma NotOwnAncestor(t: Type)
    requires t.Ranked()
    ensures t !in Ancestors(t)
  {
    ReachBelow(t.parents, t.depth);
  }

  /**
   * What `indexAncestors` adds to an index: exactly the names of the types
   * reachable from `ps`, each key mapped to a reachable type of that name
   * (or left as it was).
   */
  lemma {:induction false} IndexListSpec(acc: map<string, Type>, ps: seq<Type>, d: nat)
    requires AllRanked(ps, d)
    ensures IndexList(acc, ps, d).Keys == acc.Keys + Names(Reach(ps, d))
    ensures forall k :: k in IndexList(acc, ps, d) ==>
              (IndexList(acc, ps, d)[k] in Reach(ps, d) && IndexList(acc, ps, d)[k].name == k) ||
              (k in acc && IndexList(acc, ps, d)[k] == acc[k])
    decreases d, |ps|
  {
    if ps != [] {
      var pre := ps[..|ps| - 1];
      var last := ps[|ps| - 1];
      IndexListSpec(acc, pre, d);
      var m2 := IndexList(acc, pre, d)[last.name := last];
      IndexListSpec(m2, last.parents, last.depth);
      assert Reach(ps, d) == Reach(pre, d) + {last} + Reach(last.parents, last.depth);
      assert Names(Reach(ps, d)) == Names(Reach(pre, d)) + {last.name} + Names(Reach(last.parents, last.depth));
    }
  }

  /**
   * After indexing, `getAncestor(n)` finds a type exactly when `n` names an
   * ancestor, and what it finds is an ancestor called `n`.
   */
  lemma AncestorIndex(t: Type, n: string)
    requires t.Indexed()
    ensures t.GetAncestor(n).Some? <==> n in Names(Ancestors(t))
    ensures t.GetAncestor(n).Some? ==> t.GetAncestor(n).value in Ancestors(t) && t.GetAncestor(n).value.name == n
  {
    IndexListSpec(map[], t.parents, t.depth);
  }

  /** The types of `s` are told apart by their names, as in a registry keyed by name. */
  ghost predicate UniqueNames(s: set<Type>) {
    forall x, y :: x in s && y in s && x.name == y.name ==> x == y
  }

  /** When names are unique, a type's own name is never a key of its ancestor index. */
  lemma OwnNameNotIndexed(t: Type)
    requires t.Indexed()
    requires UniqueNames({t} + Ancestors(t))
    ensures t.GetAncestor(t.name).None?
  {
    NotOwnAncestor(t);
    AncestorIndex(t, t.name);
  }

  /**
   * The ancestors of `t` are its parents together with their ancestors:
   * each parent and each parent's ancestor is one, and every one is such.
   */
  lemma AncestorsClosure(t: Type)
    requires t.Ranked()
    ensures forall i :: 0 <= i < |t.parents| ==> t.parents[i] in Ancestors(t) && Ancestors(t.parents[i]) <= Ancestors(t)
    ensures forall x :: x in Ancestors(t) ==>
              exists i :: 0 <= i < |t.parents| && (x == t.parents[i] || x in Ancestors(t.parents[i]))
  {
    ReachMembers(t.parents, t.depth);
  }

  lemma ReachMembers(ps: seq<Type>, d: nat)
    requires AllRanked(ps, d)
    ensures forall i :: 0 <= i < |ps| ==> ps[i] in Reach(ps, d) && Ancestors(ps[i]) <= Reach(ps, d)
    ensures forall x :: x in Reach(ps, d) ==> exists i :: 0 <= i < |ps| && (x == ps[i] || x in Ancestors(ps[i]))
  {
    ReachCovers(ps, d);
    ReachWithin(ps, d);
  }

  /** Every type of `ps`, and each of its ancestors, is reachable from `ps`. */
  lemma {:induction false} ReachCovers(ps: seq<Type>, d: nat)
    requires AllRanked(ps, d)
    ensures forall i :: 0 <= i < |ps| ==> ps[i] in Reach(ps, d) && Ancestors(ps[i]) <= Reach(ps, d)
    decreases |ps|
  {
    if ps != [] {
      var pre, last := ps[..|ps| - 1], ps[|ps| - 1];
      ReachCovers(pre, d);
      assert Reach(ps, d) == Reach(pre, d) + {last} + Ancestors(last);
      forall i | 0 <= i < |pre|
        ensures ps[i] in Reach(ps, d) && Ancestors(ps[i]) <= Reach(ps, d)
      {
        assert ps[i] == pre[i];
      }
    }
  }

  /** Whatever is reachable from `ps` is one of them or one of their ancestors. */
  lemma {:induction false} ReachWithin(ps: seq<Type>, d: nat)
    requires AllRanked(ps, d)
    ensures forall x :: x in Reach(ps, d) ==> exists i :: 0 <= i < |ps| && (x == ps[i] || x in Ancestors(ps[i]))
    decreases |ps|
  {
    if ps != [] {
      var pre, last := ps[..|ps| - 1], ps[|ps| - 1];
      ReachWithin(pre, d);
      assert Reach(ps, d) == Reach(pre, d) + {last} + Ancestors(last);
      forall x | x in Reach(ps, d)
        ensures exists i :: 0 <= i < |ps| && (x == ps[i] || x in Ancestors(ps[i]))
      {
        if x in Reach(pre, d) {
          var i :| 0 <= i < |pre| && (x == pre[i] || x in Ancestors(pre[i]));
          assert ps[i] == pre[i];
        } else {
          assert x == ps[|ps| - 1] || x in Ancestors(ps[|ps| - 1]);
        }
      }
    }
  }

  /** An ancestor's ancestors are ancestors: the index is transitively closed. */
  lemma {:induction false} AncestorsTransitive(a: Type, c: Type)
    requires c.Ranked() && a in Ancestors(c)
    ensures a.Ranked() && Ancestors(a) <= Ancestors(c)
    decreases c.depth
  {
    ReachBelow(c.parents, c.depth);
    AncestorsClosure(c);
    var i :| 0 <= i < |c.parents| && (a == c.parents[i] || a in Ancestors(c.parents[i]));
    if a != c.parents[i] {
      AncestorsTransitive(a, c.parents[i]);
    }
  }

  /**
   * `isinstance(t, a)` holds exactly when `a` is `t` or one of its ancestors,
   * when the names of `a`, `t` and its ancestors tell them apart.
   */
  lemma IsInstanceIsAncestry(t: Type, a: Type)
    requires t.Indexed()
    requires UniqueNames({t, a} + Ancestors(t))
    ensures IsInstance(t, a) <==> a == t || a in Ancestors(t)
  {
    AncestorIndex(t, a.name);
  }

  /**
   * The folders collected while scanning `types`: distinct, starting with
   * `start`, and holding exactly `start` and the folder of every scanned type
   * that indexes `name` as an ancestor.
   */
  lemma {:induction false} SubtypeFoldersMembers(start: seq<Option<string>>, name: string, types: seq<Type>)
    requires NoDuplicates(start)
    ensures var r := SubtypeFolders(start, name, types);
      && NoDuplicates(r) && |start| <= |r| && r[..|start|] == start
      && forall f :: f in r <==> (f in start ||
           exists i :: 0 <= i < |types| && types[i].GetAncestor(name).Some? && types[i].folder == f)
    decreases |types|
  {
    if types != [] {
      var pre := types[..|types| - 1];
      SubtypeFoldersMembers(start, name, pre);
      assert forall i :: 0 <= i < |pre| ==> pre[i] == types[i];
    }
  }

  /**
   * `getAllNotes` searches the type's own folder first and, with subtypes,
   * also each folder of a registered type that has this type as an ancestor,
   * each folder once.
   */
  lemma SearchFoldersMembers(t: Type, withSubtypes: bool, types: seq<Type>)
    ensures var fs := t.SearchFolders(withSubtypes, types);
      && NoDuplicates(fs) && |fs| >= 1 && fs[0] == t.folder
      && (!withSubtypes ==> fs == [t.folder])
      && forall f :: f in fs <==> (f == t.folder || (withSubtypes &&
           exists i :: 0 <= i < |types| && types[i].GetAncestor(t.name).Some? && types[i].folder == f))
  {
    if withSubtypes {
      SubtypeFoldersMembers([t.folder], t.name, types);
    }
  }

  /**
   * The path `create` composes lies in the type's folder, has extension `md`
   * and the trimmed prefix-and-title as fullname, so the store lists it among
   * that folder's markdown children.
   */
  lemma CreatePathParts(folder: string, s: NoteState)
    requires '/' !in Trim(s.prefix.GetOr("") + " " + s.title.GetOr(""))
    ensures FolderOf(CreatePath(folder, s)) == folder
    ensures FullnameOf(CreatePath(folder, s)) == Trim(s.prefix.GetOr("") + " " + s.title.GetOr(""))
    ensures ExtensionOf(CreatePath(folder, s)) == "md" && StoredExtension(CreatePath(folder, s)) == "md"
  {
    var stem := Trim(s.prefix.GetOr("") + " " + s.title.GetOr(""));
    FullnameExtensionOfJoin(folder, stem, "md");
    assert (stem + "." + "md")[|stem|] == '.';
  }

  /**
   * After a `md` file is stored at `p` in `folder` (creating the folder when it
   * was absent from `before`), `getAllNotes` collects `p` from that folder
   * unless a file already occupied the folder's path.
   */
  lemma StoredFileIsListed(vault: Vault, before: map<string, Entry>, folder: string, p: string, content: string)
    requires FolderOf(p) == folder && StoredExtension(p) == "md" && p != folder
    requires vault.entries == (if folder in before then before else before[folder := FolderEntry])[p := FileEntry(content)]
    ensures p in vault.MarkdownChildren(folder)
    ensures folder !in before || before[folder] == FolderEntry ==> FolderPaths(vault, Some(folder), p)
    ensures folder in before && before[folder].FileEntry? ==> vault.IsFile(folder)
  {
    assert vault.IsFile(p);
    assert folder in before ==> vault.entries[folder] == before[folder];
  }

  /**
   * After a `create` that stored its note (the vault as its success case leaves
   * it, from the entries `before`), the new path is one `getAllNotes` collects
   * from the type's folder, unless a file already occupied the folder's path:
   * that file is left in place and makes `getAllNotes` fail.
   */
  lemma CreatedNoteIsListed(vault: Vault, before: map<string, Entry>, folder: string, s: NoteState, content: string)
    requires '/' !in Trim(s.prefix.GetOr("") + " " + s.title.GetOr(""))
    requires vault.entries ==
               (if folder in before then before else before[folder := FolderEntry])[CreatePath(folder, s) := FileEntry(content)]
    ensures CreatePath(folder, s) in vault.MarkdownChildren(folder)
    ensures folder !in before || before[folder] == FolderEntry ==> FolderPaths(vault, Some(folder), CreatePath(folder, s))
    ensures folder in before && before[folder].FileEntry? ==> vault.IsFile(folder)
  {
    var p := CreatePath(folder, s);
    CreatePathParts(folder, s);
    assert p != folder by { assert |p| > |folder|; }
    StoredFileIsListed(vault, before, folder, p, content);
  }
}
