/**
 The dictionary-level mapping behind `save_collection_as_json` and
 `load_collection_from_json`: each record becomes an object with six keys and
 each object becomes a record again, keeping the order of the collection.
 The JSON text itself and the file it lives in are not modelled; a missing
 file is a flag.
 */
module Persistence {
  import opened Wrappers
  import opened Documents

  /** The JSON values a record's fields take: null, an integer, a string, or a list of strings. */
  datatype Value = Null | Int(i: int) | Str(s: string) | StrList(items: seq<string>)

  /** One element of the persisted JSON array. */
  type Dict = map<string, Value>

  const DocumentIdKey := "document_id"
  const TitleKey := "title"
  const RawTextKey := "raw_text"
  const TermsKey := "terms"
  const FilteredTermsKey := "filtered_terms"
  const StemmedTermsKey := "stemmed_terms"

  /** The six keys every saved object has, and no other. */
  const DocKeys: set<string> :=
    {DocumentIdKey, TitleKey, RawTextKey, TermsKey, FilteredTermsKey, StemmedTermsKey}

  function IntOrNull(o: Option<int>): Value {
    match o
    case None => Null
    case Some(n) => Int(n)
  }

  function StrOrNull(o: Option<string>): Value {
    match o
    case None => Null
    case Some(x) => Str(x)
  }

  function ListOrNull(o: Option<seq<string>>): Value {
    match o
    case None => Null
    case Some(xs) => StrList(xs)
  }

  /** The object saved for one record (extraction.py lines 88-95). */
  function ToDict(d: Doc): (m: Dict)
    ensures m.Keys == DocKeys
    ensures forall k :: k in m ==> (m[k] == Null <==>
              (k == DocumentIdKey && d.documentId == None) || (k == TitleKey && d.title == None)
              || (k == RawTextKey && d.rawText == None) || (k == TermsKey && d.terms == None)
              || (k == FilteredTermsKey && d.filteredTerms == None)
              || (k == StemmedTermsKey && d.stemmedTerms == None))
  {
    map[DocumentIdKey := IntOrNull(d.documentId),
        TitleKey := StrOrNull(d.title),
        RawTextKey := StrOrNull(d.rawText),
        TermsKey := ListOrNull(d.terms),
        FilteredTermsKey := ListOrNull(d.filteredTerms),
        StemmedTermsKey := ListOrNull(d.stemmedTerms)]
  }

  /** `m.get(key)` read as an integer field: absent, null or not an integer gives None. */
  function GetInt(m: Dict, key: string): (o: Option<int>)
    ensures o.Some? <==> key in m && m[key].Int?
    ensures o.Some? ==> o.value == m[key].i
  {
    if key in m && m[key].Int? then Some(m[key].i) else None
  }

  function GetStr(m: Dict, key: string): (o: Option<string>)
    ensures o.Some? <==> key in m && m[key].Str?
    ensures o.Some? ==> o.value == m[key].s
  {
    if key in m && m[key].Str? then Some(m[key].s) else None
  }

  function GetList(m: Dict, key: string): (o: Option<seq<string>>)
    ensures o.Some? <==> key in m && m[key].StrList?
    ensures o.Some? ==> o.value == m[key].items
  {
    if key in m && m[key].StrList? then Some(m[key].items) else None
  }

  /**
   The record loaded from one object (extraction.py lines 114-120): each field
   takes the value under its key; a missing key, a null, or a value of another
   kind leaves it None.
   */
  function FromDict(m: Dict): (d: Doc)
    ensures !(DocumentIdKey in m && m[DocumentIdKey].Int?) ==> d.documentId == None
    ensures !(TitleKey in m && m[TitleKey].Str?) ==> d.title == None
    ensures !(RawTextKey in m && m[RawTextKey].Str?) ==> d.rawText == None
    ensures !(TermsKey in m && m[TermsKey].StrList?) ==> d.terms == None
    ensures !(FilteredTermsKey in m && m[FilteredTermsKey].StrList?) ==> d.filteredTerms == None
    ensures !(StemmedTermsKey in m && m[StemmedTermsKey].StrList?) ==> d.stemmedTerms == None
    ensures DocumentIdKey in m && m[DocumentIdKey].Int? ==> d.documentId == Some(m[DocumentIdKey].i)
    ensures TitleKey in m && m[TitleKey].Str? ==> d.title == Some(m[TitleKey].s)
    ensures RawTextKey in m && m[RawTextKey].Str? ==> d.rawText == Some(m[RawTextKey].s)
    ensures TermsKey in m && m[TermsKey].StrList? ==> d.terms == Some(m[TermsKey].items)
    ensures FilteredTermsKey in m && m[FilteredTermsKey].StrList? ==>
              d.filteredTerms == Some(m[FilteredTermsKey].items)
    ensures StemmedTermsKey in m && m[StemmedTermsKey].StrList? ==>
              d.stemmedTerms == Some(m[StemmedTermsKey].items)
    ensures m == map[] ==> d == EmptyDoc
  {
    Doc(GetInt(m, DocumentIdKey), GetStr(m, TitleKey), GetStr(m, RawTextKey),
        GetList(m, TermsKey), GetList(m, FilteredTermsKey), GetList(m, StemmedTermsKey))
  }

  /** Loading a saved object gives back the record, field by field, absent fields included. */
  lemma FromDictToDict(d: Doc)
    ensures FromDict(ToDict(d)) == d
  {
  }

  /** An object of the saved shape: the six keys, each holding null or a value of its field's kind. */
  predicate SavedShape(m: Dict) {
    && m.Keys == DocKeys
    && (m[DocumentIdKey].Null? || m[DocumentIdKey].Int?)
    && (m[TitleKey].Null? || m[TitleKey].Str?)
    && (m[RawTextKey].Null? || m[RawTextKey].Str?)
    && (m[TermsKey].Null? || m[TermsKey].StrList?)
    && (m[FilteredTermsKey].Null? || m[FilteredTermsKey].StrList?)
    && (m[StemmedTermsKey].Null? || m[StemmedTermsKey].StrList?)
  }

  /** Saving a loaded object of the saved shape gives back the same object: no data is lost either way. */
  lemma ToDictFromDict(m: Dict)
    requires SavedShape(m)
    ensures ToDict(FromDict(m)) == m
  {
  }

  lemma SavedShapeOfToDict(d: Doc)
    ensures SavedShape(ToDict(d))
  {
  }

  /** The JSON array written for a collection: one object per record, in order. */
  function Saved(collection: seq<Doc>): (json: seq<Dict>)
    ensures |json| == |collection|
    ensures forall i :: 0 <= i < |json| ==> json[i].Keys == DocKeys
  {
    if collection == [] then [] else Saved(collection[..|collection| - 1]) + [ToDict(collection[|collection| - 1])]
  }

  /** The collection read back: empty when there is no file, otherwise one record per element, in order. */
  function Loaded(fileExists: bool, json: seq<Dict>): (collection: seq<Doc>)
    ensures !fileExists ==> collection == []
    ensures fileExists ==> |collection| == |json|
  {
    if !fileExists || json == [] then []
    else Loaded(true, json[..|json| - 1]) + [FromDict(json[|json| - 1])]
  }

  lemma {:induction false} SavedAt(collection: seq<Doc>, i: nat)
    requires i < |collection|
    ensures Saved(collection)[i] == ToDict(collection[i])
    decreases |collection|
  {
    if i < |collection| - 1 {
      SavedAt(collection[..|collection| - 1], i);
    }
  }

  lemma {:induction false} LoadedAt(json: seq<Dict>, i: nat)
    requires i < |json|
    ensures Loaded(true, json)[i] == FromDict(json[i])
    decreases |json|
  {
    if i < |json| - 1 {
      LoadedAt(json[..|json| - 1], i);
    }
  }

  /** Load after save is the identity on collections: same length, same order, same fields. */
  lemma {:induction false} LoadAfterSave(collection: seq<Doc>)
    ensures Loaded(true, Saved(collection)) == collection
    decreases |collection|
  {
    if collection != [] {
      var p := collection[..|collection| - 1];
      var d := collection[|collection| - 1];
      LoadAfterSave(p);
      FromDictToDict(d);
      var json := Saved(collection);
      assert json[..|json| - 1] == Saved(p);
      assert collection == p + [d];
    }
  }

  lemma SavedOneMore(collection: seq<Doc>, i: nat)
    requires i < |collection|
    ensures Saved(collection[..i + 1]) == Saved(collection[..i]) + [ToDict(collection[i])]
  {
    assert collection[..i + 1][..i] == collection[..i];
  }

  lemma LoadedOneMore(json: seq<Dict>, i: nat)
    requires i < |json|
    ensures Loaded(true, json[..i + 1]) == Loaded(true, json[..i]) + [FromDict(json[i])]
  {
    assert json[..i + 1][..i] == json[..i];
  }

  /** save_collection_as_json up to the JSON encoding: the array it would dump. */
  method SaveCollection(collection: seq<Doc>) returns (serializableCollection: seq<Dict>)
    ensures serializableCollection == Saved(collection)
  {
    serializableCollection := [];
    for i := 0 to |collection|
      invariant serializableCollection == Saved(collection[..i])
    {
      var document := collection[i];
      SavedOneMore(collection, i);
      serializableCollection := serializableCollection + [ToDict(document)];
    }
    assert collection[..|collection|] == collection;
  }

  /**
   load_collection_from_json after the JSON decoding: `json` is the decoded
   array, and a missing file yields an empty collection.
   */
  method LoadCollection(fileExists: bool, json: seq<Dict>) returns (collection: seq<Doc>)
    ensures collection == Loaded(fileExists, json)
  {
    if !fileExists {
      return [];
    }
    collection := [];
    for i := 0 to |json|
      invariant collection == Loaded(true, json[..i])
    {
      var docDict := json[i];
      LoadedOneMore(json, i);
      collection := collection + [FromDict(docDict)];
    }
    assert json[..|json|] == json;
  }
}
