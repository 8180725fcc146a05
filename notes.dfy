/**
 * A note: a handle on one stored document, bound to the type resolved for
 * it when the handle is made. Its name components are computed from its path;
 * renaming moves the document and then the handle; field values are read and
 * written through a field proxy over the document's field accessor.
 */
module Notes {
  import opened Wrappers
  import opened Strings
  import opened Paths
  import opened Env
  import opened Types

  /** The arguments of `rename`; each one left unset is taken from the note. */
  datatype RenameRequest = RenameRequest(
    title: Option<string>,
    filename: Option<string>,
    extension: Option<string>,
    prefix: Option<string>,
    folder: Option<string>,
    path: Option<string>)

  /** A rename of the title alone, as `applyState` and the `title` setter issue it. */
  function TitleOnly(title: Option<string>): RenameRequest {
    RenameRequest(title, None, None, None, None, None)
  }

  /** A note's current name components: the defaults of a rename. */
  datatype NameParts = NameParts(folder: string, prefix: string, title: string, extension: string)

  /** The filename `rename` composes: the given one, else `trim(prefix + " " + title) + "." + extension`. */
  function RenameFilename(req: RenameRequest, cur: NameParts): string {
    if req.filename.Some? then req.filename.value
    else Trim(req.prefix.GetOr(cur.prefix) + " " + req.title.GetOr(cur.title)) + "." + req.extension.GetOr(cur.extension)
  }

  /** The path `rename` moves the note to: the given one, else `folder + "/" + filename`. */
  function RenameTarget(req: RenameRequest, cur: NameParts): string {
    if req.path.Some? then req.path.value
    else req.folder.GetOr(cur.folder) + "/" + RenameFilename(req, cur)
  }

  /** The prefix and title of a fullname: the type's prefix rule parses it; without one the whole fullname is the title. */
  function SplitFullname(rule: Option<Prefix>, fullname: string): PrefixParts {
    if rule.Some? then rule.value.parse(fullname) else PrefixParts("", fullname)
  }

  /** ON_RENAME: the renamed note and its name components before the move. */
  datatype RenameEvent = RenameEvent(note: Note, prevPath: string, prevFilename: string, prevFullname: string, prevTitle: string)

  /** An action or method bound to the note and its type. */
  datatype Bound<T> = Bound(item: T, note: Note, boundType: Type)

  /** The relations view of a note; its queries are not modelled. */
  datatype RelationsProxy = RelationsProxy(note: Note)

  /** A note's reading of one field: a failing read is absent, not an error. */
  function ReadOrAbsent(accessor: FieldAccessor, name: string): (r: Option<string>)
    reads accessor
  {
    match accessor.Read(name)
    case Err(_) => None
    case Ok(v) => v
  }

  /** The fields of `update` whose value differs from the current reading `cur`. */
  function Diff(cur: map<string, Option<string>>, update: map<string, string>): (d: map<string, string>)
    ensures forall k :: k in d <==> k in update && (k !in cur || cur[k] != Some(update[k]))
    ensures forall k :: k in d ==> d[k] == update[k]
  {
    map k | k in update && (k !in cur || cur[k] != Some(update[k])) :: update[k]
  }

  /** What `getState` reports: title, prefix and the reading of every field of the type. */
  datatype Snapshot = Snapshot(title: string, prefix: string, fields: map<string, Option<string>>)

  /** The field proxy: keyed reads and writes through the document's accessor. */
  class FieldsProxy {
    const accessor: FieldAccessor

    constructor (accessor: FieldAccessor)
      ensures this.accessor == accessor
    {
      this.accessor := accessor;
    }

    /** `getValue`: the accessor's value; a read that raises degrades to absent. */
    function GetValue(name: string): (r: Option<string>)
      reads accessor
      ensures accessor.Read(name).Err? ==> r.None?
      ensures accessor.Read(name).Ok? ==> r == accessor.Read(name).value
      ensures name !in accessor.unreadable && name in accessor.values ==> r == Some(accessor.values[name])
    {
      ReadOrAbsent(accessor, name)
    }

    /** `setValue`: handed to the accessor unchanged. */
    method SetValue(name: string, value: string)
      modifies accessor
      ensures accessor.values == old(accessor.values)[name := value]
      ensures accessor.writes == old(accessor.writes) + [(name, value)]
    {
      accessor.SetValue(name, value);
    }
  }

  class Note {
    var path: string
    const noteType: Option<Type>
    /** The accessor of the note's document, which the field proxy wraps once it is made. */
    const document: FieldAccessor
    /** The lazily made field proxy (`_fields`). */
    var proxy: Option<FieldsProxy>

    /** A proxy, once made, wraps the note's document. */
    ghost predicate Valid()
      reads this
    {
      proxy.Some? ==> proxy.value.accessor == document
    }

    /**
     * Resolves the type, first match wins: the explicit type, the path lookup,
     * the stored file's `_type` front-matter name, the type named "default".
     */
    constructor (path: string, explicit: Option<Type>, g: Graph, frontmatter: map<string, string>,
                 vault: Vault, document: FieldAccessor)
      ensures this.path == path && this.document == document && proxy.None? && Valid()
      ensures noteType == FirstSome(Candidates(path, explicit, g, frontmatter, vault.IsFile(path)))
    {
      var t := explicit;
      if t.None? {
        t := g.matchPath(path);
      }
      if t.None? {
        if vault.IsFile(path) {
          if path in frontmatter && frontmatter[path] != "" {
            t := g.Get(frontmatter[path]);
          }
        }
      }
      if t.None? {
        t := g.Get("default");
      }
      ghost var cs: seq<Option<Type>> := Candidates(path, explicit, g, frontmatter, vault.IsFile(path));
      assert FirstSome(cs[3..]) == cs[3] by {
        assert cs[3..][1..] == [];
      }
      assert FirstSome(cs[2..]) == if cs[2].Some? then cs[2] else FirstSome(cs[3..]) by {
        assert cs[2..][0] == cs[2] && cs[2..][1..] == cs[3..];
      }
      assert FirstSome(cs[1..]) == if cs[1].Some? then cs[1] else FirstSome(cs[2..]) by {
        assert cs[1..][0] == cs[1] && cs[1..][1..] == cs[2..];
      }
      this.path := path;
      noteType := t;
      this.document := document;
      proxy := None;
    }

    /** `typed`. */
    predicate Typed() {
      noteType.Some?
    }

    function TypePrefix(): Option<Prefix> {
      if noteType.Some? then noteType.value.prefix else None
    }

    /** `prefix`: the prefix the type's rule parses from the fullname, "" without a rule. */
    function NamePrefix(): (r: string)
      reads this`path
      ensures TypePrefix().None? ==> r == ""
      ensures TypePrefix().Some? ==> r == TypePrefix().value.parse(FullnameOf(path)).prefix
    {
      SplitFullname(TypePrefix(), FullnameOf(path)).prefix
    }

    /** `title`: the name the type's rule parses from the fullname, the fullname itself without a rule. */
    function Title(): (r: string)
      reads this`path
      ensures TypePrefix().None? ==> r == FullnameOf(path)
      ensures TypePrefix().Some? ==> r == TypePrefix().value.parse(FullnameOf(path)).name
    {
      SplitFullname(TypePrefix(), FullnameOf(path)).name
    }

    /** The name components the note would have at path `p`. */
    function PartsAt(p: string): NameParts {
      var split := SplitFullname(TypePrefix(), FullnameOf(p));
      NameParts(FolderOf(p), split.prefix, split.name, ExtensionOf(p))
    }

    /** The note's current name components: the defaults of a rename. */
    function Parts(): (r: NameParts)
      reads this`path
      ensures r == NameParts(FolderOf(path), NamePrefix(), Title(), ExtensionOf(path))
    {
      PartsAt(path)
    }

    /**
     * What `rename(req)` does to this note at path `p` over the store
     * `entries`: the result, the note's path afterwards and the store
     * afterwards. With no file at `p` it fails and nothing changes; when
     * another entry occupies the target the store refuses and nothing
     * changes; otherwise the file and the note move to the target and a
     * typed note's ON_RENAME event carries the names from before the move.
     */
    function RenameOutcome(req: RenameRequest, p: string, entries: map<string, Entry>)
      : (Result<Option<RenameEvent>, Error>, string, map<string, Entry>)
    {
      var target := RenameTarget(req, PartsAt(p));
      if p !in entries || !entries[p].FileEntry? then (Err(MissingFile(p)), p, entries)
      else if target != p && target in entries then (Err(StorageRejected(target)), p, entries)
      else
        var event := if Typed() then Some(RenameEvent(this, p, FilenameOf(p), FullnameOf(p), PartsAt(p).title)) else None;
        (Ok(event), target, (entries - {p})[target := entries[p]])
    }

    /** `actions`: absent for an untyped note, else the type's actions bound to this note. */
    function Actions(): (r: Option<map<string, Bound<Action>>>)
      ensures r.None? <==> !Typed()
      ensures r.Some? ==> r.value.Keys == noteType.value.actions.Keys
      ensures r.Some? ==> forall k :: k in r.value ==> r.value[k] == Bound(noteType.value.actions[k], this, noteType.value)
    {
      if noteType.None? then None
      else Some(map k | k in noteType.value.actions :: Bound(noteType.value.actions[k], this, noteType.value))
    }

    /** `methods`: absent for an untyped note, else the type's methods bound to this note. */
    function Methods(): (r: Option<map<string, Bound<Method>>>)
      ensures r.None? <==> !Typed()
      ensures r.Some? ==> r.value.Keys == noteType.value.methods.Keys
      ensures r.Some? ==> forall k :: k in r.value ==> r.value[k] == Bound(noteType.value.methods[k], this, noteType.value)
    {
      if noteType.None? then None
      else Some(map k | k in noteType.value.methods :: Bound(noteType.value.methods[k], this, noteType.value))
    }

    /** `relations`: absent for an untyped note. */
    function Relations(): (r: Option<RelationsProxy>)
      ensures r.None? <==> !Typed()
      ensures r.Some? ==> r.value.note == this
    {
      if noteType.None? then None else Some(RelationsProxy(this))
    }

    /** `fields`: absent for an untyped note; otherwise the proxy, made on first use. */
    method Fields() returns (r: Option<FieldsProxy>)
      requires Valid()
      modifies this`proxy
      ensures Valid()
      ensures r.None? <==> !Typed()
      ensures !Typed() ==> proxy == old(proxy)
      ensures Typed() ==> proxy == r && r.value.accessor == document
      ensures Typed() && old(proxy).Some? ==> r == old(proxy)
    {
      if noteType.None? {
        return None;
      }
      if proxy.None? {
        var p := new FieldsProxy(document);
        proxy := Some(p);
      }
      r := proxy;
    }

    /** The current reading of every field of the type; nothing for an untyped note. */
    function CurrentFields(): (m: map<string, Option<string>>)
      reads document, if noteType.Some? then {noteType.value} else {}
      ensures noteType.None? ==> m == map[]
      ensures noteType.Some? ==> m.Keys == noteType.value.fields.Keys
      ensures forall k :: k in m ==> m[k] == ReadOrAbsent(document, k)
    {
      if noteType.None? then map[]
      else map k | k in noteType.value.fields :: ReadOrAbsent(document, k)
    }

    /**
     * `getState`: reads every field of the type through the proxy, which makes
     * the proxy if the type has at least one field.
     */
    method GetState() returns (s: Snapshot)
      requires Valid()
      modifies this`proxy
      ensures Valid()
      ensures s == old(Snapshot(Title(), NamePrefix(), CurrentFields()))
      ensures path == old(path)
      ensures proxy.Some? <==> old(proxy).Some? || (Typed() && noteType.value.fields != map[])
    {
      ghost var cur := CurrentFields();
      var fields: map<string, Option<string>> := map[];
      if noteType.Some? {
        var keys := noteType.value.fields.Keys;
        while keys != {}
          invariant keys <= noteType.value.fields.Keys
          invariant Valid()
          invariant fields.Keys == noteType.value.fields.Keys - keys
          invariant forall k :: k in fields ==> fields[k] == cur[k]
          invariant proxy.Some? <==> old(proxy).Some? || keys != noteType.value.fields.Keys
          decreases keys
        {
          var k :| k in keys;
          var p := Fields();
          var v := p.value.GetValue(k);
          fields := fields[k := v];
          keys := keys - {k};
        }
      }
      assert fields == cur;
      s := Snapshot(Title(), NamePrefix(), fields);
    }

    /**
     * `rename`: composes the target, moves the stored file there and only then
     * the handle, and fires ON_RENAME with the name components from before.
     * Nothing moves when the note has no stored file or the store refuses.
     */
    method Rename(req: RenameRequest, vault: Vault) returns (r: Result<Option<RenameEvent>, Error>)
      modifies this`path, vault
      ensures (r, path, vault.entries) == RenameOutcome(req, old(path), old(vault.entries))
    {
      var target := RenameTarget(req, Parts());
      if !vault.IsFile(path) {
        return Err(MissingFile(path));
      }
      var prevPath, prevFilename, prevFullname, prevTitle := path, FilenameOf(path), FullnameOf(path), Title();
      var ok := vault.RenameFile(path, target);
      if !ok {
        return Err(StorageRejected(target));
      }
      path := target;
      if noteType.Some? {
        r := Ok(Some(RenameEvent(this, prevPath, prevFilename, prevFullname, prevTitle)));
      } else {
        r := Ok(None);
      }
    }

    /**
     * `applyState`: writes exactly the fields of the new state whose value
     * differs from the current reading, then renames only if the title differs.
     */
    method ApplyState(newState: Option<NoteState>, vault: Vault)
      returns (r: Result<Option<RenameEvent>, Error>, writes: seq<(string, string)>)
      requires Valid()
      modifies this`proxy, this`path, document, vault
      ensures Valid()
      ensures newState.None? ==> r == Ok(None) && writes == [] && path == old(path)
      ensures newState.None? ==> document.writes == old(document.writes) && document.values == old(document.values)
      ensures newState.None? ==> vault.entries == old(vault.entries)
      ensures newState.Some? ==>
        var d := Diff(old(CurrentFields()), newState.value.fields);
        var madeProxy := old(proxy).Some? || (Typed() && noteType.value.fields != map[]);
        && (d != map[] && !madeProxy ==>
              r == Err(NoFieldsProxy) && writes == [] && path == old(path) && vault.entries == old(vault.entries))
        && (d == map[] || madeProxy ==> Enumerates(writes, d))
        && document.writes == old(document.writes) + writes
        && document.values == (if d == map[] || madeProxy then old(document.values) + d else old(document.values))
        && (Some(old(Title())) == newState.value.title ==> path == old(path) && vault.entries == old(vault.entries))
        && ((d == map[] || madeProxy) && Some(old(Title())) != newState.value.title ==>
              (r, path, vault.entries) == RenameOutcome(TitleOnly(newState.value.title), old(path), old(vault.entries)))
        && ((d == map[] || madeProxy) && Some(old(Title())) == newState.value.title ==> r == Ok(None))
        && (proxy.Some? <==> madeProxy)
      ensures newState.None? ==> proxy == old(proxy)
      ensures newState.Some? && Diff(old(CurrentFields()), newState.value.fields) == map[] &&
              newState.value.title == Some(old(Title())) ==>
                r == Ok(None) && writes == [] && path == old(path) && vault.entries == old(vault.entries)
    {
      writes := [];
      if newState.None? {
        return Ok(None), writes;
      }
      var ns := newState.value;
      var state := GetState();
      r, writes := Commit(state, ns, vault);
    }

    /** `applyState` once the current state is read: the field writes, then the rename. */
    method Commit(state: Snapshot, ns: NoteState, vault: Vault)
      returns (r: Result<Option<RenameEvent>, Error>, writes: seq<(string, string)>)
      requires Valid()
      modifies this`path, document, vault
      ensures var d := Diff(state.fields, ns.fields);
        && (d != map[] && proxy.None? ==>
              r == Err(NoFieldsProxy) && writes == [] && path == old(path) && vault.entries == old(vault.entries))
        && (d == map[] || proxy.Some? ==> Enumerates(writes, d))
      ensures document.writes == old(document.writes) + writes
      ensures var d := Diff(state.fields, ns.fields);
        document.values == if d == map[] || proxy.Some? then old(document.values) + d else old(document.values)
      ensures Some(state.title) == ns.title ==> path == old(path) && vault.entries == old(vault.entries)
      ensures (Diff(state.fields, ns.fields) == map[] || proxy.Some?) && Some(state.title) != ns.title ==>
        (r, path, vault.entries) == RenameOutcome(TitleOnly(ns.title), old(path), old(vault.entries))
      ensures (Diff(state.fields, ns.fields) == map[] || proxy.Some?) && Some(state.title) == ns.title ==> r == Ok(None)
      ensures Diff(state.fields, ns.fields) == map[] && Some(state.title) == ns.title ==> r == Ok(None) && writes == []
    {
      var d := Diff(state.fields, ns.fields);
      var ok;
      ok, writes := WriteDiff(d);
      if !ok {
        return Err(NoFieldsProxy), writes;
      }
      r := Retitle(ns.title, state.title, vault);
    }

    /**
     * The write loop of `applyState`: every entry of `d` through the proxy;
     * without a proxy the first entry fails before anything is written.
     */
    method WriteDiff(d: map<string, string>) returns (ok: bool, writes: seq<(string, string)>)
      requires Valid()
      modifies document
      ensures ok <==> d == map[] || proxy.Some?
      ensures !ok ==> writes == []
      ensures ok ==> Enumerates(writes, d)
      ensures d == map[] ==> ok && writes == []
      ensures document.writes == old(document.writes) + writes
      ensures document.values == if ok then old(document.values) + d else old(document.values)
    {
      writes := [];
      if d == map[] {
        return true, writes;
      }
      if proxy.None? {
        return false, writes;
      }
      var p := proxy.value;
      var keys := d.Keys;
      while keys != {}
        invariant keys <= d.Keys
        invariant document.writes == old(document.writes) + writes
        invariant document.values == old(document.values) + map k | k in d && k !in keys :: d[k]
        invariant WrittenKeys(writes) == d.Keys - keys
        invariant forall i :: 0 <= i < |writes| ==> writes[i].0 in d && writes[i].1 == d[writes[i].0]
        invariant forall i, j :: 0 <= i < j < |writes| ==> writes[i].0 != writes[j].0
        decreases keys
      {
        var k :| k in keys;
        WrittenKeysSnoc(writes, (k, d[k]));
        p.SetValue(k, d[k]);
        writes := writes + [(k, d[k])];
        keys := keys - {k};
      }
      assert (map k | k in d && k !in keys :: d[k]) == d;
      ok := true;
    }

    /** The last step of `applyState`: a rename to `title` unless it is the current title. */
    method Retitle(title: Option<string>, current: string, vault: Vault) returns (r: Result<Option<RenameEvent>, Error>)
      modifies this`path, vault
      ensures Some(current) == title ==> r == Ok(None) && path == old(path) && vault.entries == old(vault.entries)
      ensures Some(current) != title ==> (r, path, vault.entries) == RenameOutcome(TitleOnly(title), old(path), old(vault.entries))
    {
      if Some(current) != title {
        r := Rename(TitleOnly(title), vault);
      } else {
        r := Ok(None);
      }
    }

    /**
     * `super(typeName)`: an untyped note is returned as it is; otherwise the
     * supertype is checked and a note at the same path bound to it is made.
     */
    method Super(typeName: Option<string>, g: Graph, frontmatter: map<string, string>, vault: Vault)
      returns (r: Result<Note, Error>)
      ensures !Typed() ==> r == Ok(this)
      ensures Typed() && SuperType(noteType.value, typeName, g).Err? ==> r == Err(SuperType(noteType.value, typeName, g).error)
      ensures Typed() && SuperType(noteType.value, typeName, g).Ok? ==>
        r.Ok? && fresh(r.value) && r.value.path == path && r.value.document == document &&
        r.value.noteType == Some(SuperType(noteType.value, typeName, g).value) && r.value.proxy.None?
    {
      if noteType.None? {
        return Ok(this);
      }
      var st := SuperType(noteType.value, typeName, g);
      if st.Err? {
        return Err(st.error);
      }
      var n := new Note(path, Some(st.value), g, frontmatter, vault, document);
      return Ok(n);
    }
  }

  /** The name `super` looks up: the given one, else the single parent's. */
  function SuperName(t: Type, typeName: Option<string>): (r: Result<string, Error>)
    ensures typeName.Some? && typeName.value != "" ==> r == Ok(typeName.value)
    ensures (typeName.None? || typeName.value == "") && |t.parentNames| == 1 ==> r == Ok(t.parentNames[0])
    ensures (typeName.None? || typeName.value == "") && |t.parentNames| != 1 ==> r == Err(AmbiguousParent(|t.parentNames|))
  {
    if typeName.Some? && typeName.value != "" then Ok(typeName.value)
    else if |t.parentNames| == 1 then Ok(t.parentNames[0])
    else Err(AmbiguousParent(|t.parentNames|))
  }

  /**
   * The supertype `super` binds to: a registered type of the looked-up name
   * that `t` is an instance of; an unknown name or an unrelated type fails.
   */
  function SuperType(t: Type, typeName: Option<string>, g: Graph): (r: Result<Type, Error>)
    reads t
    ensures r.Ok? ==> r.value in g.types && IsInstance(t, r.value) && SuperName(t, typeName) == Ok(r.value.name)
    ensures SuperName(t, typeName).Err? ==> r == Err(SuperName(t, typeName).error)
    ensures SuperName(t, typeName).Ok? && g.Get(SuperName(t, typeName).value).None? ==>
              r == Err(UnknownType(SuperName(t, typeName).value))
    ensures SuperName(t, typeName).Ok? && g.Get(SuperName(t, typeName).value).Some? &&
            !IsInstance(t, g.Get(SuperName(t, typeName).value).value) ==>
              r == Err(NotASupertype(SuperName(t, typeName).value))
    ensures SuperName(t, typeName).Ok? && g.Get(SuperName(t, typeName).value).Some? &&
            IsInstance(t, g.Get(SuperName(t, typeName).value).value) ==>
              r == Ok(g.Get(SuperName(t, typeName).value).value)
  {
    match SuperName(t, typeName)
    case Err(e) => Err(e)
    case Ok(n) =>
      match g.Get(n)
      case None => Err(UnknownType(n))
      case Some(st) => if IsInstance(t, st) then Ok(st) else Err(NotASupertype(n))
  }
}

/** Properties of notes that relate several operations. */
module NoteLemmas {
  import opened Wrappers
  import opened Strings
  import opened Paths
  import opened Env
  import opened Types
  import opened TypeLemmas
  import opened Notes

  /** A composed rename target splits back into the folder, fullname and extension it was built from. */
  lemma RenameTargetParts(req: RenameRequest, cur: NameParts)
    requires req.path.None? && req.filename.None?
    requires '/' !in Trim(req.prefix.GetOr(cur.prefix) + " " + req.title.GetOr(cur.title))
    requires '/' !in req.extension.GetOr(cur.extension) && '.' !in req.extension.GetOr(cur.extension)
    ensures FolderOf(RenameTarget(req, cur)) == req.folder.GetOr(cur.folder)
    ensures FullnameOf(RenameTarget(req, cur)) == Trim(req.prefix.GetOr(cur.prefix) + " " + req.title.GetOr(cur.title))
    ensures ExtensionOf(RenameTarget(req, cur)) == req.extension.GetOr(cur.extension)
  {
    var stem := Trim(req.prefix.GetOr(cur.prefix) + " " + req.title.GetOr(cur.title));
    FullnameExtensionOfJoin(req.folder.GetOr(cur.folder), stem, req.extension.GetOr(cur.extension));
  }

  /**
   * A note moved to a composed target reads back the requested name: its
   * name components are the requested ones, each unset one the old value,
   * provided the type's prefix rule parses the composed name back into its
   * prefix and title (without a rule: the prefix is empty, the title trimmed).
   */
  lemma RenameReadsBack(n: Note, req: RenameRequest, cur: NameParts)
    requires req.path.None? && req.filename.None?
    requires n.path == RenameTarget(req, cur)
    requires '/' !in Trim(req.prefix.GetOr(cur.prefix) + " " + req.title.GetOr(cur.title))
    requires '/' !in req.extension.GetOr(cur.extension) && '.' !in req.extension.GetOr(cur.extension)
    requires n.TypePrefix().Some? ==>
      n.TypePrefix().value.parse(Trim(req.prefix.GetOr(cur.prefix) + " " + req.title.GetOr(cur.title)))
        == PrefixParts(req.prefix.GetOr(cur.prefix), req.title.GetOr(cur.title))
    requires n.TypePrefix().None? ==> req.prefix.GetOr(cur.prefix) == "" && Trimmed(req.title.GetOr(cur.title))
    ensures n.Parts() == NameParts(req.folder.GetOr(cur.folder), req.prefix.GetOr(cur.prefix),
                                   req.title.GetOr(cur.title), req.extension.GetOr(cur.extension))
  {
    RenameTargetParts(req, cur);
    ComposedNameSplits(n.TypePrefix(), req.prefix.GetOr(cur.prefix), req.title.GetOr(cur.title));
  }

  /** The name `rename` composes splits back into its prefix and title. */
  lemma ComposedNameSplits(rule: Option<Prefix>, p: string, t: string)
    requires rule.Some? ==> rule.value.parse(Trim(p + " " + t)) == PrefixParts(p, t)
    requires rule.None? ==> p == "" && Trimmed(t)
    ensures SplitFullname(rule, Trim(p + " " + t)) == PrefixParts(p, t)
  {
    if rule.None? {
      assert p + " " + t == " " + t;
      TrimLeadingSpace(t);
    }
  }

  /**
   * A rename into the root folder `""`, whether requested or the note's own,
   * targets `"/" + filename`, with a leading `/`: a title-only rename of a
   * note at the root gives `"/" + trim(prefix + " " + title) + "." + extension`.
   */
  lemma RootFolderQuirk(req: RenameRequest, cur: NameParts)
    requires req.path.None? && req.folder.GetOr(cur.folder) == ""
    ensures RenameTarget(req, cur) == "/" + RenameFilename(req, cur)
    ensures RenameTarget(req, cur)[0] == '/'
    ensures req.filename.Some? ==> RenameTarget(req, cur) == "/" + req.filename.value
    ensures req.filename.None? ==>
      RenameTarget(req, cur) == "/" + (Trim(req.prefix.GetOr(cur.prefix) + " " + req.title.GetOr(cur.title)) + "." + req.extension.GetOr(cur.extension))
  {
  }

  /** The state to apply that `getState` reported: read fields carry their value, absent ones are left out. */
  function StateOf(s: Snapshot, t: Option<Type>): (ns: NoteState)
    ensures ns.title == Some(s.title) && ns.prefix == Some(s.prefix) && ns.stateType == t
    ensures forall k :: k in ns.fields <==> k in s.fields && s.fields[k].Some?
    ensures forall k :: k in ns.fields ==> s.fields[k] == Some(ns.fields[k])
  {
    NoteState(t, Some(s.prefix), Some(s.title), map k | k in s.fields && s.fields[k].Some? :: s.fields[k].value, None)
  }

  /** Applying the state `getState` reported finds no field to write and no title to change. */
  lemma ReapplyingStateIsNoop(s: Snapshot, t: Option<Type>)
    ensures Diff(s.fields, StateOf(s, t).fields) == map[]
    ensures StateOf(s, t).title == Some(s.title)
  {
    var d := Diff(s.fields, StateOf(s, t).fields);
    assert forall k :: k !in d;
  }

  /** With no name and a single parent, `super` binds to that parent, once the ancestor index is built. */
  lemma SuperOfSingleParent(t: Type, g: Graph)
    requires t.Indexed() && |t.parentNames| == 1 && |t.parents| >= 1
    requires g.Get(t.parentNames[0]) == Some(t.parents[0])
    ensures SuperType(t, None, g) == Ok(t.parents[0])
    ensures SuperType(t, Some(""), g) == Ok(t.parents[0])
  {
    AncestorsClosure(t);
    assert t.parents[0].name in Names(Ancestors(t));
    AncestorIndex(t, t.parents[0].name);
  }

  /** What `super` binds to is the type itself or one of its ancestors, when type names are unique. */
  lemma SuperIsSelfOrAncestor(t: Type, typeName: Option<string>, g: Graph)
    requires t.Indexed()
    requires SuperType(t, typeName, g).Ok?
    requires UniqueNames({t, SuperType(t, typeName, g).value} + Ancestors(t))
    ensures SuperType(t, typeName, g).value == t || SuperType(t, typeName, g).value in Ancestors(t)
  {
    IsInstanceIsAncestry(t, SuperType(t, typeName, g).value);
  }

  /** A name that is neither the type's own nor an ancestor's is refused as a supertype. */
  lemma SuperRejectsUnrelated(t: Type, n: string, g: Graph)
    requires t.Indexed() && n != "" && n != t.name
    requires g.Get(n).Some? && n !in Names(Ancestors(t))
    ensures SuperType(t, Some(n), g) == Err(NotASupertype(n))
  {
    AncestorIndex(t, n);
  }
}
