/**
  StorageService: a string-keyed store over the device's asynchronous key-value
  storage. Values are written as text (a string as it is, anything else as
  JSON.stringify writes it) and read back with JSON.parse, falling back to the raw
  text when that text is not JSON. Every failure of the underlying storage is
  rethrown to the caller.
 */
module Storage {
  import opened Wrappers
  import opened JsonValue
  import opened JsonText
  import opened JsonParse
  import opened JsonRoundTrip

  /** The error a failing storage medium raises; every operation passes it on. */
  datatype StorageError = MediumFailure

  /** What getItem resolves to: null for a missing key, the parsed value, or the raw text. */
  datatype ReadResult = Absent | Parsed(value: Json) | Raw(text: string)

  /** One `{ key, value }` element of getAllItems' result. */
  datatype Entry = Entry(key: string, value: ReadResult)

  /** The text setItem stores for a value. */
  function Serialize(v: Json): (text: string)
    ensures v.JStr? ==> text == v.s
    ensures !v.JStr? ==> Parse(text) == Some(v)
  {
    if v.JStr? then v.s else ParseStringify(v); Stringify(v)
  }

  /** JSON.parse of a stored text, or the text itself when JSON.parse throws. */
  function DecodeText(text: string): (r: ReadResult)
    ensures !r.Absent?
    ensures r.Parsed? <==> Parse(text).Some?
    ensures r.Parsed? ==> Parse(text) == Some(r.value)
    ensures r.Raw? ==> r.text == text
  {
    match Parse(text)
    case Some(v) => Parsed(v)
    case None => Raw(text)
  }

  /** What getItem resolves to for a key, given the stored texts. */
  function Lookup(entries: map<string, string>, key: string): (r: ReadResult)
    ensures r.Absent? <==> key !in entries
  {
    if key in entries then DecodeText(entries[key]) else Absent
  }

  /**
    The text multiGet pairs with a key. A key listed by getAllKeys is always stored;
    were it not, multiGet would pair it with null, which JSON.parse reads as the text
    `null`.
   */
  function StoredOrNull(entries: map<string, string>, key: string): string
  {
    if key in entries then entries[key] else "null"
  }

  /** getAllItems' `map`: one entry per key, in the order of the keys. */
  function DecodeAll(keys: seq<string>, entries: map<string, string>): (items: seq<Entry>)
    ensures |items| == |keys|
    ensures forall i :: 0 <= i < |keys| ==>
      items[i].key == keys[i] && items[i].value == DecodeText(StoredOrNull(entries, keys[i]))
  {
    if keys == [] then []
    else [Entry(keys[0], DecodeText(StoredOrNull(entries, keys[0])))] + DecodeAll(keys[1..], entries)
  }

  /** The keys without k, in their order. */
  function DropKey(keys: seq<string>, k: string): (r: seq<string>)
    ensures forall x :: x in r <==> x in keys && x != k
    ensures |r| <= |keys|
    ensures k !in keys ==> r == keys
  {
    if keys == [] then []
    else if keys[0] == k then DropKey(keys[1..], k)
    else [keys[0]] + DropKey(keys[1..], k)
  }

  predicate Distinct(keys: seq<string>)
  {
    forall i, j :: 0 <= i < j < |keys| ==> keys[i] != keys[j]
  }

  lemma {:induction false} DropKeyDistinct(keys: seq<string>, k: string)
    requires Distinct(keys)
    ensures Distinct(DropKey(keys, k))
  {
    if keys != [] {
      assert Distinct(keys[1..]) by {
        forall i, j | 0 <= i < j < |keys[1..]|
          ensures keys[1..][i] != keys[1..][j]
        {
          assert keys[1..][i] == keys[i + 1] && keys[1..][j] == keys[j + 1];
        }
      }
      DropKeyDistinct(keys[1..], k);
      if keys[0] != k {
        var rest := DropKey(keys[1..], k);
        assert keys[0] !in rest;
        var r := [keys[0]] + rest;
        forall i, j | 0 <= i < j < |r|
          ensures r[i] != r[j]
        {
          if i == 0 {
            assert r[j] == rest[j - 1];
          } else {
            assert r[i] == rest[i - 1] && r[j] == rest[j - 1];
          }
        }
      }
    }
  }

  class StorageService {
    /** The text stored under each key. */
    var entries: map<string, string>
    /** The stored keys, in the order getAllKeys reports them. */
    var keys: seq<string>

    /** Every stored key is listed exactly once. */
    ghost predicate Valid()
      reads this
    {
      Distinct(keys) && forall k :: k in entries <==> k in keys
    }

    constructor()
      ensures Valid() && entries == map[] && keys == []
    {
      entries := map[];
      keys := [];
    }

    /** setItem: store the value's text under key; a failing medium leaves everything as it was. */
    method SetItem(key: string, value: Json, fails: bool) returns (r: Outcome<StorageError>)
      requires Valid()
      modifies this
      ensures Valid()
      ensures r.Fail? <==> fails
      ensures fails ==> entries == old(entries) && keys == old(keys)
      ensures !fails ==> entries == old(entries)[key := Serialize(value)]
      ensures !fails ==> keys == if key in old(entries) then old(keys) else old(keys) + [key]
    {
      if fails {
        return Fail(MediumFailure);
      }
      var text := if value.JStr? then value.s else Stringify(value);
      if key !in entries {
        keys := keys + [key];
      }
      entries := entries[key := text];
      return Pass;
    }

    /** getItem: null for a missing key, else the parsed text, else the raw text. */
    method GetItem(key: string, fails: bool) returns (r: Result<ReadResult, StorageError>)
      ensures r.Failure? <==> fails
      ensures r.Success? ==> r.value == Lookup(entries, key)
    {
      if fails {
        return Failure(MediumFailure);
      }
      if key !in entries {
        return Success(Absent);
      }
      var text := entries[key];
      match Parse(text)
      case Some(v) => r := Success(Parsed(v));
      case None => r := Success(Raw(text));
    }

    /** removeItem: forget key, whether or not it was stored. */
    method RemoveItem(key: string, fails: bool) returns (r: Outcome<StorageError>)
      requires Valid()
      modifies this
      ensures Valid()
      ensures r.Fail? <==> fails
      ensures fails ==> entries == old(entries) && keys == old(keys)
      ensures !fails ==> entries == old(entries) - {key} && keys == DropKey(old(keys), key)
    {
      if fails {
        return Fail(MediumFailure);
      }
      DropKeyDistinct(keys, key);
      keys := DropKey(keys, key);
      entries := entries - {key};
      return Pass;
    }

    /** getAllKeys: every stored key, each once. */
    method GetAllKeys(fails: bool) returns (r: Result<seq<string>, StorageError>)
      requires Valid()
      ensures r.Failure? <==> fails
      ensures r.Success? ==> r.value == keys
      ensures r.Success? ==> Distinct(r.value) && forall k :: k in r.value <==> k in entries
    {
      if fails {
        return Failure(MediumFailure);
      }
      return Success(keys);
    }

    /** getAllItems: one `{ key, value }` per stored key, decoded as getItem decodes. */
    method GetAllItems(fails: bool) returns (r: Result<seq<Entry>, StorageError>)
      requires Valid()
      ensures r.Failure? <==> fails
      ensures r.Success? ==> r.value == DecodeAll(keys, entries)
    {
      if fails {
        return Failure(MediumFailure);
      }
      return Success(DecodeAll(keys, entries));
    }

    /** clearAll: forget every key. */
    method ClearAll(fails: bool) returns (r: Outcome<StorageError>)
      requires Valid()
      modifies this
      ensures Valid()
      ensures r.Fail? <==> fails
      ensures fails ==> entries == old(entries) && keys == old(keys)
      ensures !fails ==> entries == map[] && keys == []
    {
      if fails {
        return Fail(MediumFailure);
      }
      entries := map[];
      keys := [];
      return Pass;
    }
  }

  // ---- what reading after writing gives -----------------------------------------

  /**
    After setItem(key, v), getItem(key) gives v back when v is not a string; a string
    is stored verbatim and read back parsed when it is JSON text, raw otherwise.
   */
  lemma SetThenGet(entries: map<string, string>, key: string, v: Json)
    ensures key in entries[key := Serialize(v)]
    ensures !v.JStr? ==> Lookup(entries[key := Serialize(v)], key) == Parsed(v)
    ensures v.JStr? ==> entries[key := Serialize(v)][key] == v.s
    ensures v.JStr? && Parse(v.s).None? ==> Lookup(entries[key := Serialize(v)], key) == Raw(v.s)
    ensures v.JStr? && Parse(v.s).Some? ==> Lookup(entries[key := Serialize(v)], key) == Parsed(Parse(v.s).value)
  {
    if !v.JStr? {
      ParseStringify(v);
    }
  }

  /**
    A string whose characters happen to be some value's JSON text does not come back
    as that string: getItem gives the value the text spells.
   */
  lemma JsonLookingString(entries: map<string, string>, key: string, v: Json)
    ensures Lookup(entries[key := Serialize(JStr(Stringify(v)))], key) == Parsed(v)
    ensures Parsed(v) != Parsed(JStr(Stringify(v)))
  {
    ParseStringify(v);
    StringifyShorter(v);
  }

  /** A value's JSON text is never the JSON text of the string holding that text. */
  lemma StringifyShorter(v: Json)
    ensures v != JStr(Stringify(v))
  {
    if v.JStr? {
      assert |Stringify(v)| >= |v.s| + 2 by {
        EscapeLonger(v.s);
      }
    }
  }

  lemma {:induction false} EscapeLonger(s: string)
    ensures |EscapeString(s)| >= |s|
  {
    if s != [] {
      EscapeLonger(s[1..]);
    }
  }

  /** setItem(key, _) changes what getItem gives for key only. */
  lemma SetKeepsOthers(entries: map<string, string>, key: string, text: string, other: string)
    requires other != key
    ensures Lookup(entries[key := text], other) == Lookup(entries, other)
  {
  }

  /** After removeItem(key), getItem(key) is null; other keys are unchanged; removing again changes nothing. */
  lemma RemoveThenGet(entries: map<string, string>, key: string, other: string)
    ensures Lookup(entries - {key}, key) == Absent
    ensures other != key ==> Lookup(entries - {key}, other) == Lookup(entries, other)
    ensures (entries - {key}) - {key} == entries - {key}
    ensures key !in entries ==> entries - {key} == entries
  {
  }

  /** After clearAll, getAllKeys is empty and getItem is null for every key. */
  lemma ClearThenGet(key: string)
    ensures Lookup(map[], key) == Absent
    ensures DecodeAll([], map[]) == []
  {
  }

  /** getAllItems decodes each listed key exactly as getItem does. */
  lemma AllItemsAgreeWithGetItem(keys: seq<string>, entries: map<string, string>)
    requires forall k :: k in keys ==> k in entries
    ensures forall i :: 0 <= i < |keys| ==> DecodeAll(keys, entries)[i] == Entry(keys[i], Lookup(entries, keys[i]))
  {
    var items := DecodeAll(keys, entries);
    forall i | 0 <= i < |keys|
      ensures items[i] == Entry(keys[i], Lookup(entries, keys[i]))
    {
      assert keys[i] in keys;
    }
  }
}
