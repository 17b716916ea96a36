/** Redaction of structured log data and of a log record's fields. */
module LogValues {
  import opened LogRedaction
  import opened RedactedText
  import opened SensitiveKeys

  /** A dictionary key and its text: the key itself when it is a string, else what `str` makes of it. */
  datatype Key = Name(text: string) | Converted(text: string)

  /** Dictionaries keep their entries in order; a scalar is a number, a boolean or any other object. */
  datatype Value =
    | Null
    | Text(text: string)
    | Binary(bytes: seq<int>)
    | Dict(entries: seq<(Key, Value)>)
    | List(items: seq<Value>)
    | Tuple(parts: seq<Value>)
    | Set(members: set<Value>)
    | Scalar(id: int)

  const MARKER := Text(MASK)

  /** Assigning a key of a dictionary: the old place if the key is there, else a new one at the end. */
  function Put(entries: seq<(Key, Value)>, key: Key, v: Value): seq<(Key, Value)> {
    if entries == [] then [(key, v)]
    else if entries[0].0 == key then [(key, v)] + entries[1..]
    else [entries[0]] + Put(entries[1..], key, v)
  }

  function Redact(cls: Classes, lower: Lower, v: Value): Value
    decreases v, if v.Dict? then |v.entries| + 1 else 0
  {
    match v
    case Null => Null
    case Text(s) => Text(RedactText(cls, s))
    case Binary(_) => MARKER
    case Dict(entries) => Dict(RedactEntries(cls, lower, v, |entries|))
    case List(items) => List(seq(|items|, i requires 0 <= i < |items| => Redact(cls, lower, items[i])))
    case Tuple(parts) => Tuple(seq(|parts|, i requires 0 <= i < |parts| => Redact(cls, lower, parts[i])))
    case Set(members) => Set(set m | m in members :: Redact(cls, lower, m))
    case Scalar(_) => v
  }

  /** The first `n` entries of a dictionary, redacted and keyed by their texts. */
  function RedactEntries(cls: Classes, lower: Lower, v: Value, n: nat): seq<(Key, Value)>
    requires v.Dict? && n <= |v.entries|
    decreases v, n
  {
    if n == 0 then []
    else
      var (key, value) := v.entries[n - 1];
      Put(RedactEntries(cls, lower, v, n - 1), Name(key.text),
          if Sensitive(lower, key.text) then MARKER else Redact(cls, lower, value))
  }

  predicate DistinctNames(entries: seq<(Key, Value)>) {
    && (forall i :: 0 <= i < |entries| ==> entries[i].0.Name?)
    && (forall i, j :: 0 <= i < j < |entries| ==> entries[i].0 != entries[j].0)
  }

  /**
   Nothing left to redact, at any depth: strings have no credential, there are no raw bytes, dictionaries are
   keyed by distinct strings and hold the marker at every sensitive key.
   */
  ghost predicate Clean(cls: Classes, lower: Lower, v: Value) {
    match v
    case Null => true
    case Text(s) => RedactText(cls, s) == s
    case Binary(_) => false
    case Dict(entries) => DistinctNames(entries) && forall e :: e in entries ==> CleanEntry(cls, lower, e)
    case List(items) => forall i :: 0 <= i < |items| ==> Clean(cls, lower, items[i])
    case Tuple(parts) => forall i :: 0 <= i < |parts| ==> Clean(cls, lower, parts[i])
    case Set(members) => forall m :: m in members ==> Clean(cls, lower, m)
    case Scalar(_) => true
  }

  ghost predicate CleanEntry(cls: Classes, lower: Lower, e: (Key, Value)) {
    if Sensitive(lower, e.0.text) then e.1 == MARKER else Clean(cls, lower, e.1)
  }

  lemma {:induction false} PutKeeps(cls: Classes, lower: Lower, entries: seq<(Key, Value)>, key: Key, v: Value)
    requires key.Name? && DistinctNames(entries) && CleanEntry(cls, lower, (key, v))
    requires forall e :: e in entries ==> CleanEntry(cls, lower, e)
    ensures DistinctNames(Put(entries, key, v))
    ensures forall e :: e in Put(entries, key, v) ==> CleanEntry(cls, lower, e)
    ensures forall e :: e in Put(entries, key, v) ==> e.0 == key || e in entries
  {
    hide CleanEntry;
    if entries != [] && entries[0].0 != key {
      PutKeeps(cls, lower, entries[1..], key, v);
      var rest := Put(entries[1..], key, v);
      forall j | 0 <= j < |rest| ensures rest[j].0 != entries[0].0 {
        assert rest[j] in rest;
      }
      assert Put(entries, key, v) == [entries[0]] + rest;
    }
  }

  /** What redaction returns is clean. */
  lemma {:induction false} RedactCleans(cls: Classes, lower: Lower, v: Value)
    requires Usual(cls)
    ensures Clean(cls, lower, Redact(cls, lower, v))
    decreases v, if v.Dict? then |v.entries| + 1 else 0
  {
    hide Usual, Sensitive;
    match v
    case Null =>
    case Scalar(_) =>
    case Text(s) => RedactTextTwice(cls, s);
    case Binary(_) => MarkerIsClean(cls, lower);
    case Dict(entries) => EntriesCleaned(cls, lower, v, |entries|);
    case List(items) =>
      forall i | 0 <= i < |items| ensures Clean(cls, lower, Redact(cls, lower, items[i])) {
        RedactCleans(cls, lower, items[i]);
      }
    case Tuple(parts) =>
      forall i | 0 <= i < |parts| ensures Clean(cls, lower, Redact(cls, lower, parts[i])) {
        RedactCleans(cls, lower, parts[i]);
      }
    case Set(members) =>
      forall m | m in members ensures Clean(cls, lower, Redact(cls, lower, m)) {
        RedactCleans(cls, lower, m);
      }
  }

  lemma {:induction false} EntriesCleaned(cls: Classes, lower: Lower, v: Value, n: nat)
    requires Usual(cls) && v.Dict? && n <= |v.entries|
    ensures var out := RedactEntries(cls, lower, v, n);
      DistinctNames(out) && forall e :: e in out ==> CleanEntry(cls, lower, e)
    decreases v, n
  {
    hide Usual, Sensitive;
    if n > 0 {
      var (key, value) := v.entries[n - 1];
      EntriesCleaned(cls, lower, v, n - 1);
      RedactCleans(cls, lower, value);
      PutKeeps(cls, lower, RedactEntries(cls, lower, v, n - 1), Name(key.text),
        if Sensitive(lower, key.text) then MARKER else Redact(cls, lower, value));
    }
  }

  lemma MarkerIsClean(cls: Classes, lower: Lower)
    requires Usual(cls)
    ensures Clean(cls, lower, MARKER)
  {
    MaskRedacted(cls);
  }

  lemma MaskRedacted(cls: Classes)
    requires Usual(cls)
    ensures RedactText(cls, MASK) == MASK
  {
    MaskIsWord(cls, BEARER, BEARER.name);
    assert MASK + "" == MASK;
    hide Usual, Substitute;
    KeywordAtEnd(cls, BEARER, false, MASK, "");
    KeywordAtEnd(cls, BASIC, false, MASK, "");
    MaskUnchanged(cls);
  }

  lemma {:induction false} PutAppends(entries: seq<(Key, Value)>, key: Key, v: Value)
    requires forall i :: 0 <= i < |entries| ==> entries[i].0 != key
    ensures Put(entries, key, v) == entries + [(key, v)]
  {
    if entries != [] {
      PutAppends(entries[1..], key, v);
      assert entries == [entries[0]] + entries[1..];
    }
  }

  /** A clean value is left as it is. */
  lemma {:induction false} CleanIsKept(cls: Classes, lower: Lower, v: Value)
    requires Clean(cls, lower, v)
    ensures Redact(cls, lower, v) == v
    decreases v, if v.Dict? then |v.entries| + 1 else 0
  {
    hide Sensitive, RedactText;
    match v
    case Null =>
    case Scalar(_) =>
    case Text(_) =>
    case Dict(entries) =>
      CleanEntriesKept(cls, lower, v, |entries|);
      assert entries[..|entries|] == entries;
    case List(items) =>
      forall i | 0 <= i < |items| ensures Redact(cls, lower, items[i]) == items[i] {
        CleanIsKept(cls, lower, items[i]);
      }
      assert Redact(cls, lower, v).items == items;
    case Tuple(parts) =>
      forall i | 0 <= i < |parts| ensures Redact(cls, lower, parts[i]) == parts[i] {
        CleanIsKept(cls, lower, parts[i]);
      }
      assert Redact(cls, lower, v).parts == parts;
    case Set(members) =>
      forall m | m in members ensures Redact(cls, lower, m) == m {
        CleanIsKept(cls, lower, m);
      }
      assert Redact(cls, lower, v).members == members;
  }

  lemma {:induction false} CleanEntriesKept(cls: Classes, lower: Lower, v: Value, n: nat)
    requires v.Dict? && n <= |v.entries| && Clean(cls, lower, v)
    ensures RedactEntries(cls, lower, v, n) == v.entries[..n]
    decreases v, n
  {
    hide Sensitive;
    if n > 0 {
      var e := v.entries[n - 1];
      assert e in v.entries && CleanEntry(cls, lower, e);
      CleanEntriesKept(cls, lower, v, n - 1);
      if !Sensitive(lower, e.0.text) {
        CleanIsKept(cls, lower, e.1);
      }
      assert e == (Name(e.0.text), e.1);
      PutAppends(v.entries[..n - 1], e.0, e.1);
      assert v.entries[..n] == v.entries[..n - 1] + [e];
    }
  }

  /** Redaction changes exactly the values that are not clean; in particular, doing it twice is doing it once. */
  lemma RedactIsIdempotent(cls: Classes, lower: Lower, v: Value)
    requires Usual(cls)
    ensures Redact(cls, lower, v) == v <==> Clean(cls, lower, v)
    ensures Redact(cls, lower, Redact(cls, lower, v)) == Redact(cls, lower, v)
  {
    RedactCleans(cls, lower, v);
    CleanIsKept(cls, lower, Redact(cls, lower, v));
    if Clean(cls, lower, v) {
      CleanIsKept(cls, lower, v);
    }
  }

  /** No key is lost or made up. */
  lemma {:induction false} KeysKept(cls: Classes, lower: Lower, v: Value, n: nat)
    requires v.Dict? && n <= |v.entries|
    ensures (set e | e in RedactEntries(cls, lower, v, n) :: e.0.text) == set e | e in v.entries[..n] :: e.0.text
    decreases n
  {
    hide Sensitive, Redact, Put;
    if n > 0 {
      KeysKept(cls, lower, v, n - 1);
      var (key, value) := v.entries[n - 1];
      var out := if Sensitive(lower, key.text) then MARKER else Redact(cls, lower, value);
      PutKeys(RedactEntries(cls, lower, v, n - 1), Name(key.text), out);
      KeysOfSnoc(v.entries, n);
    }
  }

  lemma KeysOfSnoc(entries: seq<(Key, Value)>, n: nat)
    requires 0 < n <= |entries|
    ensures (set x | x in entries[..n] :: x.0.text)
         == (set x | x in entries[..n - 1] :: x.0.text) + {entries[n - 1].0.text}
  {
    assert entries[..n] == entries[..n - 1] + [entries[n - 1]];
    assert entries[n - 1] in entries[..n];
  }

  lemma {:induction false} PutKeys(entries: seq<(Key, Value)>, key: Key, v: Value)
    ensures (set e | e in Put(entries, key, v) :: e.0.text) == (set e | e in entries :: e.0.text) + {key.text}
  {
    if entries == [] {
      KeysOfCons((key, v), []);
      assert [(key, v)] + [] == [(key, v)];
    } else {
      KeysOfCons(entries[0], entries[1..]);
      assert entries == [entries[0]] + entries[1..];
      if entries[0].0 == key {
        KeysOfCons((key, v), entries[1..]);
      } else {
        PutKeys(entries[1..], key, v);
        KeysOfCons(entries[0], Put(entries[1..], key, v));
      }
    }
  }

  lemma KeysOfCons(e: (Key, Value), rest: seq<(Key, Value)>)
    ensures (set x | x in [e] + rest :: x.0.text) == {e.0.text} + set x | x in rest :: x.0.text
  {
    assert e in [e] + rest;
    assert forall x :: x in rest ==> x in [e] + rest;
  }

  /* ---- what is shown ---- */

  /** Strings show their redaction, bytes the marker, other scalars themselves; lists and tuples keep their places. */
  lemma PartsShown(cls: Classes, lower: Lower, v: Value)
    ensures v.Text? ==> Redact(cls, lower, v) == Text(RedactText(cls, v.text))
    ensures v.Binary? ==> Redact(cls, lower, v) == Text("[REDACTED]")
    ensures v.Null? || v.Scalar? ==> Redact(cls, lower, v) == v
    ensures v.List? ==>
      var out := Redact(cls, lower, v);
      && out.List? && |out.items| == |v.items|
      && forall i :: 0 <= i < |v.items| ==> out.items[i] == Redact(cls, lower, v.items[i])
    ensures v.Tuple? ==>
      var out := Redact(cls, lower, v);
      && out.Tuple? && |out.parts| == |v.parts|
      && forall i :: 0 <= i < |v.parts| ==> out.parts[i] == Redact(cls, lower, v.parts[i])
  {
    hide RedactText;
  }

  lemma {:induction false} PutEntry(entries: seq<(Key, Value)>, key: Key, v: Value, e: (Key, Value))
    requires DistinctNames(entries) && e in Put(entries, key, v)
    ensures e == (key, v) || (e.0 != key && e in entries)
  {
    if entries != [] && entries[0].0 != key && e != entries[0] {
      PutEntry(entries[1..], key, v, e);
    }
  }

  lemma NamesDiffer(cls: Classes, lower: Lower, v: Value, n: nat)
    requires Usual(cls) && v.Dict? && n <= |v.entries|
    ensures DistinctNames(RedactEntries(cls, lower, v, n))
  {
    hide *;
    EntriesCleaned(cls, lower, v, n);
  }

  /**
   An entry of a redacted dictionary is that of the last of the original's entries with its text as key: its value
   redacted or, if the key is sensitive, the marker.
   */
  lemma {:induction false} EntryShown(cls: Classes, lower: Lower, v: Value, n: nat, e: (Key, Value)) returns (i: nat)
    requires Usual(cls) && v.Dict? && n <= |v.entries| && e in RedactEntries(cls, lower, v, n)
    ensures i < n && e.0 == Name(v.entries[i].0.text)
    ensures forall j :: i < j < n ==> v.entries[j].0.text != v.entries[i].0.text
    ensures e.1 == if Sensitive(lower, e.0.text) then MARKER else Redact(cls, lower, v.entries[i].1)
    decreases n
  {
    hide *;
    EntriesStart(cls, lower, v);
    var key, out := v.entries[n - 1].0, EntryOut(cls, lower, v.entries[n - 1]);
    EntriesNext(cls, lower, v, n);
    NamesDiffer(cls, lower, v, n - 1);
    PutEntry(RedactEntries(cls, lower, v, n - 1), Name(key.text), out, e);
    if e.0 == Name(key.text) {
      i := n - 1;
      EntryOutIs(cls, lower, v.entries[i]);
    } else {
      i := EntryShown(cls, lower, v, n - 1, e);
    }
  }

  function EntryOut(cls: Classes, lower: Lower, e: (Key, Value)): Value {
    if Sensitive(lower, e.0.text) then MARKER else Redact(cls, lower, e.1)
  }

  lemma EntryOutIs(cls: Classes, lower: Lower, e: (Key, Value))
    ensures EntryOut(cls, lower, e) == if Sensitive(lower, e.0.text) then MARKER else Redact(cls, lower, e.1)
  {
  }

  lemma EntriesStart(cls: Classes, lower: Lower, v: Value)
    requires v.Dict?
    ensures RedactEntries(cls, lower, v, 0) == []
  {
  }

  lemma EntriesNext(cls: Classes, lower: Lower, v: Value, n: nat)
    requires v.Dict? && 0 < n <= |v.entries|
    ensures var e := v.entries[n - 1];
      RedactEntries(cls, lower, v, n)
        == Put(RedactEntries(cls, lower, v, n - 1), Name(e.0.text), EntryOut(cls, lower, e))
  {
    hide Sensitive, Redact, Put;
  }

  /* ---- the log record ---- */

  /** What becomes of a field; only strings, bytes and collections are rewritten in place of their values. */
  function RedactField(cls: Classes, lower: Lower, name: string, v: Value): Value {
    if Sensitive(lower, name) then MARKER else Redact(cls, lower, v)
  }

  class Record {
    var fields: map<string, Value>

    constructor (initial: map<string, Value>)
      ensures fields == initial
    {
      fields := initial;
    }

    /** The logging filter: the message first, then every field as it stood after that. */
    method Filter(cls: Classes, lower: Lower) returns (keep: bool)
      requires Usual(cls)
      modifies this
      ensures keep
      ensures fields == map name | name in old(fields) :: RedactField(cls, lower, name, old(fields)[name])
    {
      hide Usual, Sensitive, RedactText, Redact, RedactField;
      if "msg" in fields && fields["msg"].Text? {
        MessageTwice(cls, lower, fields["msg"].text);
        fields := fields["msg" := Text(RedactText(cls, fields["msg"].text))];
      }
      var snapshot := fields;
      assert snapshot.Keys == old(fields).Keys;
      assert forall name :: name in snapshot ==>
        RedactField(cls, lower, name, snapshot[name]) == RedactField(cls, lower, name, old(fields)[name]);
      var names := snapshot.Keys;
      while names != {}
        invariant names <= snapshot.Keys == fields.Keys
        invariant forall name :: name in snapshot ==>
          fields[name] == if name in names then snapshot[name] else RedactField(cls, lower, name, snapshot[name])
        decreases names
      {
        var name :| name in names;
        names := names - {name};
        var raw := snapshot[name];
        FieldCases(cls, lower, name, raw);
        if Sensitive(lower, name) {
          fields := fields[name := MARKER];
        } else if Rewritten(raw) {
          fields := fields[name := Redact(cls, lower, raw)];
        }
      }
      keep := true;
    }
  }

  /** The types the filter hands to the recursive redaction. */
  predicate Rewritten(v: Value) {
    v.Dict? || v.List? || v.Tuple? || v.Set? || v.Text? || v.Binary?
  }

  lemma FieldCases(cls: Classes, lower: Lower, name: string, v: Value)
    ensures RedactField(cls, lower, name, v)
         == if Sensitive(lower, name) then MARKER else if Rewritten(v) then Redact(cls, lower, v) else v
  {
    hide Sensitive, RedactText;
  }

  lemma MessageTwice(cls: Classes, lower: Lower, s: string)
    requires Usual(cls)
    ensures RedactField(cls, lower, "msg", Text(RedactText(cls, s))) == RedactField(cls, lower, "msg", Text(s))
  {
    hide Usual, Sensitive, RedactText;
    RedactTextTwice(cls, s);
  }

  /** Filtering a filtered record changes nothing, and no sensitive field shows its value. */
  lemma FilterIsIdempotent(cls: Classes, lower: Lower, name: string, v: Value)
    requires Usual(cls)
    ensures var w := RedactField(cls, lower, name, v);
      RedactField(cls, lower, name, w) == w && CleanEntry(cls, lower, (Name(name), w))
  {
    RedactIsIdempotent(cls, lower, v);
    RedactCleans(cls, lower, v);
  }
}
