/** Key-value states, and their canonical byte string: length-prefixed pairs in strictly ascending key order. */
module Serialization {
  import opened Prelude
  import opened Crypto
  import opened Codec

  type Kv = map<Bytes, Bytes>

  /** An after-image: the new value of a key, or none when the key is removed. */
  datatype Write = Write(key: Bytes, value: Option<Bytes>)

  function ApplyWrite(kv: Kv, w: Write): Kv {
    if w.value.Some? then kv[w.key := w.value.value] else kv - {w.key}
  }

  function ApplyWrites(kv: Kv, ws: seq<Write>): Kv {
    if ws == [] then kv else ApplyWrite(ApplyWrites(kv, ws[..|ws| - 1]), ws[|ws| - 1])
  }

  lemma NoWrites(kv: Kv)
    ensures ApplyWrites(kv, []) == kv
  {
  }

  lemma OneWrite(kv: Kv, w: Write)
    ensures ApplyWrites(kv, [w]) == ApplyWrite(kv, w)
  {
    assert [w][..0] == [];
  }

  lemma TwoWrites(kv: Kv, v: Write, w: Write)
    ensures ApplyWrites(kv, [v, w]) == ApplyWrite(ApplyWrite(kv, v), w)
  {
    assert [v, w][..1] == [v];
    OneWrite(kv, v);
  }

  // ---------------------------------------------------------------- byte order

  predicate Below(a: Bytes, b: Bytes) {
    if b == [] then false
    else if a == [] then true
    else if a[0] != b[0] then a[0] < b[0]
    else Below(a[1..], b[1..])
  }

  lemma {:induction false} BelowTotal(a: Bytes, b: Bytes)
    ensures !Below(a, a)
    ensures Below(a, b) ==> !Below(b, a)
    ensures Below(a, b) || Below(b, a) || a == b
  {
    if a != [] {
      BelowTotal(a[1..], if b == [] then [] else b[1..]);
      if b != [] && a[0] == b[0] { assert a == [a[0]] + a[1..] && b == [b[0]] + b[1..]; }
    }
  }

  lemma {:induction false} BelowTransitive(a: Bytes, b: Bytes, c: Bytes)
    requires Below(a, b) && Below(b, c)
    ensures Below(a, c)
  {
    if a != [] && a[0] == b[0] == c[0] { BelowTransitive(a[1..], b[1..], c[1..]); }
  }

  // ---------------------------------------------------------------- entries

  datatype Entry = Entry(key: Bytes, value: Bytes)

  ghost predicate Ascending(es: seq<Entry>) {
    forall i, j :: 0 <= i < j < |es| ==> Below(es[i].key, es[j].key)
  }

  ghost function Contents(es: seq<Entry>): Kv {
    if es == [] then map[] else Contents(es[..|es| - 1])[es[|es| - 1].key := es[|es| - 1].value]
  }

  lemma {:induction false} ContentsKeys(es: seq<Entry>)
    ensures forall k :: k in Contents(es) <==> exists i :: 0 <= i < |es| && es[i].key == k
  {
    if es != [] {
      var front := es[..|es| - 1];
      ContentsKeys(front);
      forall k ensures k in Contents(es) <==> exists i :: 0 <= i < |es| && es[i].key == k {
        if k in Contents(front) {
          var i :| 0 <= i < |front| && front[i].key == k;
          assert es[i].key == k;
        }
        if i :| 0 <= i < |es| && es[i].key == k { assert i < |front| ==> front[i].key == k; }
      }
    }
  }

  lemma FrontAscending(es: seq<Entry>)
    requires Ascending(es) && es != []
    ensures Ascending(es[..|es| - 1]) && es[|es| - 1].key !in Contents(es[..|es| - 1])
  {
    var front, last := es[..|es| - 1], es[|es| - 1].key;
    ContentsKeys(front);
    if last in Contents(front) {
      var i :| 0 <= i < |front| && front[i].key == last;
      assert Below(es[i].key, es[|es| - 1].key);
      BelowTotal(last, last);
    }
  }

  /** The last key of an ascending list is the greatest. */
  lemma LastIsGreatest(es: seq<Entry>, k: Bytes)
    requires Ascending(es) && es != [] && k in Contents(es)
    ensures k == es[|es| - 1].key || Below(k, es[|es| - 1].key)
  {
    ContentsKeys(es);
    var i :| 0 <= i < |es| && es[i].key == k;
  }

  lemma LastEntry(es: seq<Entry>)
    requires Ascending(es)
    ensures es == [] <==> Contents(es) == map[]
    ensures es != [] ==>
      var last := es[|es| - 1];
      && last.key in Contents(es) && Contents(es)[last.key] == last.value
      && Contents(es[..|es| - 1]) == Contents(es) - {last.key}
  {
    hide Below, Ascending, Contents;
    if es == [] {
      NoContents();
    } else {
      FrontAscending(es);
      ContentsStep(es);
    }
  }

  lemma NoContents()
    ensures Contents([]) == map[]
  {
  }

  lemma ContentsStep(es: seq<Entry>)
    requires es != []
    ensures Contents(es) == Contents(es[..|es| - 1])[es[|es| - 1].key := es[|es| - 1].value]
  {
  }

  /** A state has one ascending list of entries. */
  lemma {:induction false} EntriesUnique(a: seq<Entry>, b: seq<Entry>)
    requires Ascending(a) && Ascending(b) && Contents(a) == Contents(b)
    ensures a == b
  {
    hide Ascending, Contents, Below;
    LastEntry(a);
    LastEntry(b);
    if a != [] {
      var la, lb := a[|a| - 1], b[|b| - 1];
      LastIsGreatest(a, lb.key);
      LastIsGreatest(b, la.key);
      BelowTotal(la.key, lb.key);
      FrontAscending(a);
      FrontAscending(b);
      var fa, fb := a[..|a| - 1], b[..|b| - 1];
      EntriesUnique(fa, fb);
      assert a == fa + [la] && b == fb + [lb];
    }
  }

  /** A non-empty finite set of keys has a greatest one. */
  lemma {:induction false} GreatestExists(keys: set<Bytes>) returns (top: Bytes)
    requires keys != {}
    ensures top in keys && forall k :: k in keys ==> k == top || Below(k, top)
  {
    var k :| k in keys;
    if keys == {k} {
      top := k;
    } else {
      var t := GreatestExists(keys - {k});
      BelowTotal(k, t);
      top := if Below(k, t) then t else k;
      forall j | j in keys ensures j == top || Below(j, top) {
        if j != k && j != t && top == k { BelowTransitive(j, t, k); }
      }
    }
  }

  lemma {:induction false} EntriesExist(kv: Kv) returns (es: seq<Entry>)
    ensures Ascending(es) && Contents(es) == kv
    decreases |kv|
  {
    if kv == map[] {
      es := [];
    } else {
      var some :| some in kv;
      assert some in kv.Keys;
      var top := GreatestExists(kv.Keys);
      var rest := kv - {top};
      assert rest.Keys == kv.Keys - {top};
      var front := EntriesExist(rest);
      ContentsKeys(front);
      es := front + [Entry(top, kv[top])];
      forall i | 0 <= i < |front| ensures Below(front[i].key, top) {
        assert front[i].key in Contents(front);
      }
      assert es[..|es| - 1] == front;
      assert Contents(es) == kv;
    }
  }

  /** The entries of a state, as the ordered partition yields them. */
  ghost function Entries(kv: Kv): (es: seq<Entry>)
    ensures Ascending(es) && Contents(es) == kv
  {
    assert exists es :: Ascending(es) && Contents(es) == kv by { var es := EntriesExist(kv); }
    var es :| Ascending(es) && Contents(es) == kv;
    es
  }

  // ---------------------------------------------------------------- bytes

  function PutEntry(e: Entry): Bytes { PutField(e.key) + PutField(e.value) }

  function Serialize(es: seq<Entry>): Bytes {
    if es == [] then [] else Serialize(es[..|es| - 1]) + PutEntry(es[|es| - 1])
  }

  /** Reads entries to the end of the input; each key must lie above the one before. */
  function Parse(previous: Option<Bytes>, cursor: Bytes): Option<seq<Entry>>
    decreases |cursor|
  {
    if cursor == [] then Some([])
    else
      match TakeField(cursor)
      case Err(_) => None
      case Ok(key) =>
        match TakeField(key.rest)
        case Err(_) => None
        case Ok(value) =>
          if previous.Some? && !Below(previous.value, key.value) then None
          else
            match Parse(Some(key.value), value.rest)
            case None => None
            case Some(es) => Some([Entry(key.value, value.value)] + es)
  }

  ghost predicate EntryFits(e: Entry) { |e.key| < 0x1_0000_0000 && |e.value| < 0x1_0000_0000 }

  ghost predicate AscendingFrom(previous: Option<Bytes>, es: seq<Entry>) {
    Ascending(es) && (previous.Some? && es != [] ==> Below(previous.value, es[0].key))
  }

  lemma {:induction false} SerializeFront(e: Entry, es: seq<Entry>)
    ensures Serialize([e] + es) == PutEntry(e) + Serialize(es)
  {
    hide PutEntry;
    var all := [e] + es;
    if es == [] {
      assert all[..|all| - 1] == [];
      assert Serialize([e]) == [] + PutEntry(e);
    } else {
      assert all[..|all| - 1] == [e] + es[..|es| - 1];
      SerializeFront(e, es[..|es| - 1]);
      assert all[|all| - 1] == es[|es| - 1];
    }
  }

  lemma TakeEntry(e: Entry, rest: Bytes)
    requires EntryFits(e)
    ensures TakeField(PutEntry(e) + rest) == Ok(Parsed(e.key, PutField(e.value) + rest))
    ensures TakeField(PutField(e.value) + rest) == Ok(Parsed(e.value, rest))
    ensures |PutEntry(e)| >= 8
  {
    hide TakeField;
    assert PutEntry(e) + rest == PutField(e.key) + (PutField(e.value) + rest);
    TakeFieldAppended(e.key, PutField(e.value) + rest);
    TakeFieldAppended(e.value, rest);
  }

  /** What is serialized parses back. */
  lemma {:induction false} ParseSerialized(previous: Option<Bytes>, es: seq<Entry>)
    requires AscendingFrom(previous, es) && forall e :: e in es ==> EntryFits(e)
    ensures Parse(previous, Serialize(es)) == Some(es)
    decreases |es|
  {
    hide TakeField, PutEntry, PutField, Below;
    if es != [] {
      var rest := es[1..];
      assert es == [es[0]] + rest;
      SerializeFront(es[0], rest);
      TakeEntry(es[0], Serialize(rest));
      ParseSerialized(Some(es[0].key), rest);
    }
  }

  /** Only canonical input parses: the entries found are ascending and serialize to the input itself. */
  lemma {:induction false} ParseCanonical(previous: Option<Bytes>, cursor: Bytes)
    requires Parse(previous, cursor).Some?
    ensures var es := Parse(previous, cursor).value;
      AscendingFrom(previous, es) && Serialize(es) == cursor && forall e :: e in es ==> EntryFits(e)
    decreases |cursor|
  {
    hide TakeField, PutField, Below;
    if cursor != [] {
      var key := TakeField(cursor).value;
      var value := TakeField(key.rest).value;
      TakeShrinks(cursor);
      TakeShrinks(key.rest);
      ParseCanonical(Some(key.value), value.rest);
      var es := Parse(Some(key.value), value.rest).value;
      var e := Entry(key.value, value.value);
      SerializeFront(e, es);
      TakeFieldCanonical(cursor);
      TakeFieldCanonical(key.rest);
      assert cursor == PutEntry(e) + value.rest;
      AscendingCons(e, es);
    }
  }

  lemma TakeShrinks(cursor: Bytes)
    requires TakeField(cursor).Ok?
    ensures |TakeField(cursor).value.rest| < |cursor|
  {
  }

  lemma AscendingCons(e: Entry, es: seq<Entry>)
    requires AscendingFrom(Some(e.key), es)
    ensures Ascending([e] + es)
  {
    hide Below;
    forall j | 0 <= j < |es| ensures Below(e.key, es[j].key) {
      if j > 0 { BelowTransitive(e.key, es[0].key, es[j].key); }
    }
  }
}
