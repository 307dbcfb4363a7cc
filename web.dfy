/**
 * The browser objects the front end touches: a chosen file, the ordered
 * entries of a multipart form, and a request to the back end.
 */
module Web {
  import opened Wrappers

  /** A file picked in an `<input type="file">`: its name, size in bytes and MIME type. */
  datatype File = File(name: string, size: nat, mimeType: string)

  /** A form entry's value is either text or a file. */
  datatype FormValue = Text(text: string) | Blob(file: File)

  datatype Entry = Entry(name: string, value: FormValue)

  /** What `FormData.get(name)` returns: the value of the first entry with that name, or nothing. */
  function FirstValue(entries: seq<Entry>, name: string): (r: Option<FormValue>)
    ensures r.None? <==> forall i :: 0 <= i < |entries| ==> entries[i].name != name
    ensures r.Some? ==> exists i :: 0 <= i < |entries| && entries[i] == Entry(name, r.value)
                          && forall j :: 0 <= j < i ==> entries[j].name != name
  {
    if |entries| == 0 then None
    else if entries[0].name == name then Some(entries[0].value)
    else
      var r := FirstValue(entries[1..], name);
      assert forall j :: 0 <= j < |entries| - 1 ==> entries[1..][j] == entries[j + 1];
      r
  }

  /** Appending an entry under another name does not change what `get` finds. */
  lemma {:induction false} FirstValueAppendOther(entries: seq<Entry>, e: Entry, name: string)
    requires e.name != name
    ensures FirstValue(entries + [e], name) == FirstValue(entries, name)
    decreases |entries|
  {
    if |entries| > 0 {
      assert (entries + [e])[1..] == entries[1..] + [e];
      if entries[0].name != name {
        FirstValueAppendOther(entries[1..], e, name);
      }
    }
  }

  /** Appending under a name not yet present makes `get` find the new value. */
  lemma {:induction false} FirstValueAppendNew(entries: seq<Entry>, e: Entry)
    requires FirstValue(entries, e.name).None?
    ensures FirstValue(entries + [e], e.name) == Some(e.value)
    decreases |entries|
  {
    if |entries| > 0 {
      assert (entries + [e])[1..] == entries[1..] + [e];
      FirstValueAppendNew(entries[1..], e);
    }
  }

  /** A `FormData` object: entries kept in the order they were appended. */
  class FormData {
    var entries: seq<Entry>

    constructor()
      ensures entries == []
    {
      entries := [];
    }

    /** `formData.append(name, value)`: adds an entry at the end, keeping earlier entries of the same name. */
    method Append(name: string, value: FormValue)
      modifies this
      ensures entries == old(entries) + [Entry(name, value)]
    {
      entries := entries + [Entry(name, value)];
    }

    /** `formData.get(name)`. */
    function Get(name: string): Option<FormValue>
      reads this
    {
      FirstValue(entries, name)
    }
  }

  /** A request to the back end: where it goes and the form it carries. */
  datatype Request = Request(url: string, body: seq<Entry>)

  /** A response, reduced to whether it was `ok` and its decoded body. */
  datatype Response<T> = Response(ok: bool, body: T)
}
