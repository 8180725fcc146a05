/**
 * The collaborators the type and note code calls but does not define:
 * the prefix parser, the document store (vault), the field accessor of a
 * stored document and the in-memory accessor used while composing a new
 * document. Each is modelled only as far as the call sites use it.
 */
module Env {
  import opened Wrappers
  import opened Paths

  /** What a prefix rule's `parse` returns for a fullname. */
  datatype PrefixParts = PrefixParts(prefix: string, name: string)

  /** A type's prefix rule; the modelled code only ever calls `parse`. */
  datatype Prefix = Prefix(parse: string -> PrefixParts)

  /** A stored entry: a file with its text, or a folder. */
  datatype Entry = FileEntry(content: string) | FolderEntry

  /**
   * The extension the store reports for a file: the text after the last `.`
   * of its filename, or "" when the filename has none.
   */
  function StoredExtension(path: string): (r: string)
    ensures '.' in FilenameOf(path) ==> r == ExtensionOf(path)
    ensures '.' !in FilenameOf(path) ==> r == ""
  {
    if '.' in FilenameOf(path) then ExtensionOf(path) else ""
  }

  /** The document store, keyed by path. */
  class Vault {
    var entries: map<string, Entry>

    constructor (entries: map<string, Entry>)
      ensures this.entries == entries
    {
      this.entries := entries;
    }

    /** `getAbstractFileByPath`; a null path finds nothing. */
    function Lookup(path: Option<string>): (r: Option<Entry>)
      reads this
      ensures r.Some? <==> path.Some? && path.value in entries
      ensures r.Some? ==> r.value == entries[path.value]
    {
      if path.Some? && path.value in entries then Some(entries[path.value]) else None
    }

    /** The entry at `path` is a file (a `TFile`). */
    predicate IsFile(path: string)
      reads this
    {
      path in entries && entries[path].FileEntry?
    }

    /** The direct children of `folder` that are files with extension `md`. */
    function MarkdownChildren(folder: string): (r: set<string>)
      reads this
      ensures forall p :: p in r <==> IsFile(p) && FolderOf(p) == folder && StoredExtension(p) == "md"
    {
      set p | p in entries && entries[p].FileEntry? && FolderOf(p) == folder && StoredExtension(p) == "md"
    }

    /** `createFolder`. */
    method CreateFolder(folder: string)
      modifies this
      ensures entries == old(entries)[folder := FolderEntry]
    {
      entries := entries[folder := FolderEntry];
    }

    /** `create`: refused when something is already stored at `path`. */
    method Create(path: string, content: string) returns (ok: bool)
      modifies this
      ensures ok <==> path !in old(entries)
      ensures entries == if ok then old(entries)[path := FileEntry(content)] else old(entries)
    {
      ok := path !in entries;
      if ok {
        entries := entries[path := FileEntry(content)];
      }
    }

    /**
     * `renameFile`: moves the file at `from` to `to`; refused when `from` is
     * not a file or when another entry already occupies `to`.
     */
    method RenameFile(from: string, to: string) returns (ok: bool)
      modifies this
      ensures ok <==> old(IsFile(from)) && (to == from || to !in old(entries))
      ensures ok ==> entries == (old(entries) - {from})[to := old(entries)[from]]
      ensures !ok ==> entries == old(entries)
    {
      ok := IsFile(from) && (to == from || to !in entries);
      if ok {
        var e := entries[from];
        entries := (entries - {from})[to := e];
      }
    }
  }

  /**
   * The field accessor of a stored document: the values its fields hold,
   * the fields whose read raises, and the log of every write it receives.
   */
  class FieldAccessor {
    var values: map<string, string>
    const unreadable: set<string>
    var writes: seq<(string, string)>

    constructor (values: map<string, string>, unreadable: set<string>)
      ensures this.values == values && this.unreadable == unreadable && writes == []
    {
      this.values := values;
      this.unreadable := unreadable;
      writes := [];
    }

    /** `getValue`: raises (`Err`) for an unreadable field, else the stored value if any. */
    function Read(name: string): (r: Result<Option<string>, string>)
      reads this
      ensures r.Err? <==> name in unreadable
      ensures r.Ok? ==> (r.value.Some? <==> name in values)
      ensures r.Ok? && r.value.Some? ==> r.value.value == values[name]
    {
      if name in unreadable then Err(name)
      else if name in values then Ok(Some(values[name]))
      else Ok(None)
    }

    /** `setValue`: stores `value` for `name` and logs the write. */
    method SetValue(name: string, value: string)
      modifies this
      ensures values == old(values)[name := value]
      ensures writes == old(writes) + [(name, value)]
    {
      values := values[name := value];
      writes := writes + [(name, value)];
    }
  }

  /** The text encoding of one field write into a document, left abstract. */
  type Codec = (string, string, string) -> string

  /** The text that results from applying `writes`, in order, to `content`. */
  function ApplyWrites(codec: Codec, content: string, writes: seq<(string, string)>): string
    decreases |writes|
  {
    if writes == [] then content
    else ApplyWrites(codec, codec(content, writes[0].0, writes[0].1), writes[1..])
  }

  /** The keys written by `w`. */
  function WrittenKeys(w: seq<(string, string)>): set<string> {
    set i | 0 <= i < |w| :: w[i].0
  }

  /** `w` writes every entry of `m` exactly once, with its value, in some order. */
  ghost predicate Enumerates(w: seq<(string, string)>, m: map<string, string>) {
    && (forall i :: 0 <= i < |w| ==> w[i].0 in m && w[i].1 == m[w[i].0])
    && (forall i, j :: 0 <= i < j < |w| ==> w[i].0 != w[j].0)
    && WrittenKeys(w) == m.Keys
  }

  /** Extending a write log by one write extends its key set by that key. */
  lemma WrittenKeysSnoc(w: seq<(string, string)>, x: (string, string))
    ensures WrittenKeys(w + [x]) == WrittenKeys(w) + {x.0}
  {
    var w' := w + [x];
    assert w'[|w|] == x;
    forall k | k in WrittenKeys(w) ensures k in WrittenKeys(w') {
      var i :| 0 <= i < |w| && w[i].0 == k;
      assert w'[i] == w[i];
    }
  }

  /**
   * The in-memory field accessor a new document is composed in: the text
   * so far and the log of the writes applied to it.
   */
  class Buffer {
    var content: string
    const codec: Codec
    var writes: seq<(string, string)>

    constructor (content: string, codec: Codec)
      ensures this.content == content && this.codec == codec && writes == []
    {
      this.content := content;
      this.codec := codec;
      writes := [];
    }

    /** `setValue`: re-encodes the text with `name` set to `value`. */
    method SetValue(name: string, value: string)
      modifies this
      ensures content == codec(old(content), name, value)
      ensures writes == old(writes) + [(name, value)]
    {
      content := codec(content, name, value);
      writes := writes + [(name, value)];
    }
  }

  /** Applying one more write after a log applies it to the log's result. */
  lemma {:induction false} ApplyWritesSnoc(codec: Codec, content: string, w: seq<(string, string)>, x: (string, string))
    ensures ApplyWrites(codec, content, w + [x]) == codec(ApplyWrites(codec, content, w), x.0, x.1)
    decreases |w|
  {
    if w == [] {
      assert [x][1..] == [];
    } else {
      assert (w + [x])[1..] == w[1..] + [x];
      ApplyWritesSnoc(codec, codec(content, w[0].0, w[0].1), w[1..], x);
    }
  }
}
