/**
  The calculation input handed to an instance: a structure, an input object
  with a name, and the input object's content whose parameter dictionary
  (`content.input`) is a mutable Python dict. The dictionary is a field of a
  class so that several inputs sharing one content object see each other's
  updates, as they do after a shallow `copy.copy`.
*/
module Params {

  import opened Text

  /** A parameter value of the OCEAN input (numbers and words). */
  datatype Value = Int(i: int) | Str(s: string)

  /** Python's `str(v)`, as used in `f'{name}_{param}'`. */
  function Show(v: Value): string {
    match v
    case Int(i) => IntToString(i)
    case Str(s) => s
  }

  /** The atomic structure as the core sees it: its name and the chemical
      symbol of every atom, in declaration order. */
  datatype Structure = Structure(name: string, symbols: seq<string>)

  /** What `set(key, value)` leaves behind: the new dictionary and whether a
      save was triggered. */
  datatype SetResult = SetResult(data: map<string, Value>, saved: bool)

  /** The parameter update of `_xas.set`: afterwards `key` maps to `value`,
      no other entry changes, and a save happens exactly when the key was
      absent or held a different value. */
  function Upsert(data: map<string, Value>, key: string, value: Value): (r: SetResult)
    ensures key in r.data && r.data[key] == value
    ensures r.data.Keys == data.Keys + {key}
    ensures forall k :: k in data && k != key ==> r.data[k] == data[k]
    ensures r.saved <==> key !in data || data[key] != value
    ensures !r.saved ==> r.data == data
  {
    if key in data && data[key] == value then SetResult(data, false)
    else SetResult(data[key := value], true)
  }

  /** Setting the value a key already has is a no-op and saves nothing;
      in particular a second identical `set` never saves. */
  lemma UpsertIdempotent(data: map<string, Value>, key: string, value: Value)
    ensures Upsert(Upsert(data, key, value).data, key, value)
         == SetResult(Upsert(data, key, value).data, false)
  {
  }

  /** The content of an input: the parameter dictionary and the absorbing
      element and edge it targets. */
  class Content {
    var input: map<string, Value>
    const element: string
    const edge: string

    constructor (input: map<string, Value>, element: string, edge: string)
      ensures this.input == input && this.element == element && this.edge == edge
    {
      this.input := input;
      this.element := element;
      this.edge := edge;
    }

    /** A copy with its own dictionary (`copy.deepcopy`). */
    constructor Copy(other: Content)
      ensures input == other.input && element == other.element && edge == other.edge
    {
      input := other.input;
      element := other.element;
      edge := other.edge;
    }
  }

  /** A named calculation input. */
  class Input {
    const name: string
    const structure: Structure
    const content: Content

    constructor (name: string, structure: Structure, content: Content)
      ensures this.name == name && this.structure == structure && this.content == content
    {
      this.name := name;
      this.structure := structure;
      this.content := content;
    }

    /** `copy.copy(other)` renamed to `name`: a new input object that shares
        `other`'s content. */
    constructor ShallowCopy(other: Input, name: string)
      ensures this.name == name && structure == other.structure && content == other.content
    {
      this.name := name;
      structure := other.structure;
      content := other.content;
    }

    /** `copy.deepcopy(other)` renamed to `name`: a new input object with a
        content of its own. */
    constructor DeepCopy(other: Input, name: string)
      ensures this.name == name && structure == other.structure
      ensures fresh(content)
      ensures content.input == other.content.input
      ensures content.element == other.content.element && content.edge == other.content.edge
    {
      this.name := name;
      structure := other.structure;
      content := new Content.Copy(other.content);
    }
  }
}
