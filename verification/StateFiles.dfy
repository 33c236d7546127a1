/**
  The JSON arrays in which the daemon keeps its grants and its cron jobs: a list of records, each with a
  16-digit hex id, loaded into a map by id. `key` is the id of a record.
 */
module StateFiles {
  import opened Text

  type Id = string

  predicate ValidId(s: string) {
    |s| == 16 && forall i | 0 <= i < 16 :: HexChar(s[i])
  }

  /** The digits, one by one. */
  lemma IdsAreHex(s: string)
    ensures ValidId(s) <==> |s| == 16 && forall i | 0 <= i < 16 :: s[i] in "0123456789abcdef"
  {
    if |s| == 16 {
      forall i | 0 <= i < 16
        ensures HexChar(s[i]) <==> s[i] in "0123456789abcdef"
      {
        HexDigits(s[i]);
      }
      hide HexChar;
    }
  }

  lemma HexDigits(c: char)
    ensures HexChar(c) <==> c in "0123456789abcdef"
  {
  }

  datatype Entry<+R> = Record(value: R) | NotAnObject

  /** `Unreadable` covers a missing file, one that cannot be opened, a parse error and a document that is not
      an array. */
  datatype StateFile<+R> = Unreadable | Document(entries: seq<Entry<R>>)

  function LoadEntries<R>(entries: seq<Entry<R>>, key: R -> Id): map<Id, R> {
    if entries == [] then map[]
    else
      var m := LoadEntries(entries[..|entries| - 1], key);
      var e := entries[|entries| - 1];
      if e.Record? && ValidId(key(e.value)) then m[key(e.value) := e.value] else m
  }

  /** What a fresh owner of the file has in memory after reading it. */
  function LoadMap<R>(file: StateFile<R>, key: R -> Id): map<Id, R> {
    if file.Unreadable? then map[] else LoadEntries(file.entries, key)
  }

  ghost predicate Keyed<R(!new)>(m: map<Id, R>, key: R -> Id) {
    forall id | id in m :: ValidId(id) && key(m[id]) == id
  }

  /** Every entry is a record of `m` under its own id. */
  ghost predicate AllFrom<R(!new)>(entries: seq<Entry<R>>, m: map<Id, R>, key: R -> Id) {
    forall i | 0 <= i < |entries| ::
      entries[i].Record? && key(entries[i].value) in m && m[key(entries[i].value)] == entries[i].value
  }

  /** `file` is some ordering of exactly the records in `m`. */
  ghost predicate Lists<R(!new)>(file: StateFile<R>, m: map<Id, R>, key: R -> Id) {
    && file.Document?
    && AllFrom(file.entries, m, key)
    && (forall id | id in m :: Record(m[id]) in file.entries)
  }

  lemma {:induction false} EntriesAreKeyed<R(!new)>(entries: seq<Entry<R>>, key: R -> Id)
    ensures Keyed(LoadEntries(entries, key), key)
  {
    if entries == [] {
    } else {
      EntriesAreKeyed(entries[..|entries| - 1], key);
    }
  }

  /** Of several records with the same valid id the last one counts; nothing else is loaded. */
  ghost predicate IsLast<R(!new)>(entries: seq<Entry<R>>, key: R -> Id, id: Id, i: int) {
    && 0 <= i < |entries| && entries[i].Record? && key(entries[i].value) == id
    && forall j | i < j < |entries| && entries[j].Record? :: key(entries[j].value) != id
  }

  lemma {:induction false} LastRecordCounts<R(!new)>(entries: seq<Entry<R>>, key: R -> Id, id: Id)
    ensures var m := LoadEntries(entries, key);
            && (id in m <==> ValidId(id) && exists i :: IsLast(entries, key, id, i))
            && (forall i | IsLast(entries, key, id, i) && ValidId(id) :: id in m && m[id] == entries[i].value)
  {
    hide ValidId;
    if entries == [] {
    } else {
      var n := |entries| - 1;
      LastRecordCounts(entries[..n], key, id);
      var e := entries[n];
      if e.Record? && key(e.value) == id {
        assert IsLast(entries, key, id, n);
      } else {
        forall i
          ensures IsLast(entries, key, id, i) <==> IsLast(entries[..n], key, id, i)
        {
        }
      }
    }
  }

  /** Saving then loading restores the map, whatever order the records were written in. */
  lemma ListedLoadsBack<R(!new)>(file: StateFile<R>, m: map<Id, R>, key: R -> Id)
    requires Keyed(m, key) && Lists(file, m, key)
    ensures LoadMap(file, key) == m
  {
    LoadAgrees(file.entries, m, key);
  }

  lemma {:induction false} LoadAgrees<R(!new)>(entries: seq<Entry<R>>, m: map<Id, R>, key: R -> Id)
    requires Keyed(m, key) && AllFrom(entries, m, key)
    ensures forall id | id in LoadEntries(entries, key) :: id in m && LoadEntries(entries, key)[id] == m[id]
    ensures forall id | id in m && Record(m[id]) in entries :: id in LoadEntries(entries, key)
  {
    if entries == [] {
    } else {
      LoadAgrees(entries[..|entries| - 1], m, key);
    }
  }
}
