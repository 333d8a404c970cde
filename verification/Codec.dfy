// tcbot/database/cache/codec.py: the tagged JSON form in which MongoDB scalars cross the
// Redis boundary.
module Codec {
  import opened Wrappers

  /** A moment and an ObjectId, as opaque identities. */
  type Moment = int
  type Oid = int

  /** What a cache entry can hold. JSON has no Date, ObjectId or Tuple. */
  datatype Value =
    | Null
    | Bool(truth: bool)
    | Num(number: int)
    | Str(text: string)
    | Date(moment: Moment)
    | ObjectId(oid: Oid)
    | List(items: seq<Value>)
    | Tuple(items: seq<Value>)
    | Dict(entries: map<string, Value>)

  /** `datetime.isoformat`/`fromisoformat` and `str(ObjectId)`/`ObjectId(...)`; a parser that
      raises is None. */
  datatype Formats = Formats(
    isoFormat: Moment -> string, fromIso: string -> Option<Moment>,
    oidText: Oid -> string, parseOid: string -> Option<Oid>)
  {
    /** Reading back what was printed gives the same scalar. */
    ghost predicate Faithful() {
      && (forall d :: fromIso(isoFormat(d)) == Some(d))
      && (forall o :: parseOid(oidText(o)) == Some(o))
    }
  }

  const TYPE_KEY := "__tcbot_type__"
  const VALUE_KEY := "value"
  const DATETIME_TYPE := "datetime"
  const OBJECT_ID_TYPE := "objectid"

  function Tagged(kind: string, text: string): Value {
    Dict(map[TYPE_KEY := Str(kind), VALUE_KEY := Str(text)])
  }

  /** `_tag_scalars`. */
  function Tag(f: Formats, v: Value): Value
    decreases v
  {
    match v
    case Date(moment) => Tagged(DATETIME_TYPE, f.isoFormat(moment))
    case ObjectId(oid) => Tagged(OBJECT_ID_TYPE, f.oidText(oid))
    case Dict(m) => Dict(map k | k in m :: Tag(f, m[k]))
    case List(s) => List(seq(|s|, i requires 0 <= i < |s| => Tag(f, s[i])))
    case Tuple(s) => List(seq(|s|, i requires 0 <= i < |s| => Tag(f, s[i])))
    case _ => v
  }

  /** The exact-shape check, after the children were restored. */
  function Recognise(f: Formats, m: map<string, Value>): Value {
    if m.Keys != {TYPE_KEY, VALUE_KEY} || !m[VALUE_KEY].Str? then Dict(m)
    else if m[TYPE_KEY] == Str(DATETIME_TYPE) then
      match f.fromIso(m[VALUE_KEY].text)
      case Some(moment) => Date(moment)
      case None => Dict(m)
    else if m[TYPE_KEY] == Str(OBJECT_ID_TYPE) then
      match f.parseOid(m[VALUE_KEY].text)
      case Some(oid) => ObjectId(oid)
      case None => Dict(m)
    else Dict(m)
  }

  /** `_restore_tagged`. */
  function Restore(f: Formats, v: Value): Value
    decreases v
  {
    match v
    case Dict(m) => Recognise(f, map k | k in m :: Restore(f, m[k]))
    case List(s) => List(seq(|s|, i requires 0 <= i < |s| => Restore(f, s[i])))
    case _ => v
  }

  /* ----- What the round trip should give ----- */

  /** The value itself, with tuples as lists. */
  function Listed(v: Value): Value
    decreases v
  {
    match v
    case Dict(m) => Dict(map k | k in m :: Listed(m[k]))
    case List(s) => List(seq(|s|, i requires 0 <= i < |s| => Listed(s[i])))
    case Tuple(s) => List(seq(|s|, i requires 0 <= i < |s| => Listed(s[i])))
    case _ => v
  }

  /** A user's dict that has the exact shape of a tagged scalar: the two keys, the name of a
      scalar type and a string that parses as one. */
  predicate ForgedScalar(f: Formats, m: map<string, Value>) {
    && m.Keys == {TYPE_KEY, VALUE_KEY}
    && m[VALUE_KEY].Str?
    && (|| (m[TYPE_KEY] == Str(DATETIME_TYPE) && f.fromIso(m[VALUE_KEY].text).Some?)
        || (m[TYPE_KEY] == Str(OBJECT_ID_TYPE) && f.parseOid(m[VALUE_KEY].text).Some?))
  }

  /** No dict anywhere inside is a forged scalar. */
  predicate Genuine(f: Formats, v: Value)
    decreases v
  {
    match v
    case Dict(m) => !ForgedScalar(f, m) && forall k :: k in m ==> Genuine(f, m[k])
    case List(s) => forall i :: 0 <= i < |s| ==> Genuine(f, s[i])
    case Tuple(s) => forall i :: 0 <= i < |s| ==> Genuine(f, s[i])
    case _ => true
  }

  /** Only what JSON can carry (section 3 of RFC 8259). */
  predicate IsJson(v: Value)
    decreases v
  {
    match v
    case Dict(m) => forall k :: k in m ==> IsJson(m[k])
    case List(s) => forall i :: 0 <= i < |s| ==> IsJson(s[i])
    case Date(_) => false
    case ObjectId(_) => false
    case Tuple(_) => false
    case _ => true
  }

  /* ----- Proofs ----- */

  lemma {:induction false} TaggedScalars(f: Formats, v: Value)
    requires f.Faithful() && (v.Date? || v.ObjectId?)
    ensures Restore(f, Tag(f, v)) == v
  {
    var tagged := Tag(f, v);
    var m := tagged.entries;
    var back := map k | k in m :: Restore(f, m[k]);
    assert back == m;
    assert m.Keys == {TYPE_KEY, VALUE_KEY};
  }

  /** A string comes back, and nothing else becomes a string. */
  lemma {:induction false} Strings(f: Formats, v: Value)
    ensures v.Str? ==> Restore(f, Tag(f, v)) == v
    ensures !v.Str? ==> !Restore(f, Tag(f, v)).Str?
  {
  }

  /** The entries of a dict after the round trip, before the exact-shape check. */
  function Back(f: Formats, m: map<string, Value>): map<string, Value> {
    map k | k in m :: Restore(f, Tag(f, m[k]))
  }

  lemma RestoreOfDict(f: Formats, m: map<string, Value>)
    ensures Restore(f, Tag(f, Dict(m))) == Recognise(f, Back(f, m))
  {
    hide Recognise;
    var tagged := map k | k in m :: Tag(f, m[k]);
    assert Tag(f, Dict(m)) == Dict(tagged);
    var restored := map k | k in tagged :: Restore(f, tagged[k]);
    assert Restore(f, Dict(tagged)) == Recognise(f, restored);
    assert restored == Back(f, m);
  }

  /** The check lets a dict through untouched, unless it is a forged scalar. */
  lemma RecogniseExactly(f: Formats, m: map<string, Value>)
    ensures Recognise(f, m) == Dict(m) <==> !ForgedScalar(f, m)
    ensures ForgedScalar(f, m) ==> Recognise(f, m).Date? || Recognise(f, m).ObjectId?
  {
  }

  /** Forgery is neither made nor undone by the round trip of the entries. */
  lemma ForgedStaysForged(f: Formats, m: map<string, Value>)
    ensures ForgedScalar(f, Back(f, m)) <==> ForgedScalar(f, m)
  {
    hide Restore, Tag;
    assert Back(f, m).Keys == m.Keys;
    if m.Keys == {TYPE_KEY, VALUE_KEY} {
      assert TYPE_KEY in m && VALUE_KEY in m;
      Strings(f, m[TYPE_KEY]);
      Strings(f, m[VALUE_KEY]);
    }
  }

  /** The codec's promise, exactly: tagging and restoring gives the value back, tuples as
      lists, if and only if no dict inside has the form of a tagged scalar. */
  lemma {:induction false} RoundTripExactlyWhenGenuine(f: Formats, v: Value)
    requires f.Faithful()
    ensures Restore(f, Tag(f, v)) == Listed(v) <==> Genuine(f, v)
    decreases v
  {
    match v
    case Date(_) => TaggedScalars(f, v);
    case ObjectId(_) => TaggedScalars(f, v);
    case List(s) => RoundTripOfItems(f, v, s);
    case Tuple(s) => RoundTripOfItems(f, v, s);
    case Dict(m) => RoundTripOfEntries(f, m);
    case _ =>
  }

  lemma {:induction false} RoundTripOfItems(f: Formats, v: Value, s: seq<Value>)
    requires f.Faithful() && (v == List(s) || v == Tuple(s))
    ensures Restore(f, Tag(f, v)) == Listed(v) <==> Genuine(f, v)
    decreases v, 0
  {
    var back := Restore(f, Tag(f, v)).items;
    var want := Listed(v).items;
    assert |back| == |want| == |s|;
    forall i | 0 <= i < |s|
      ensures back[i] == Restore(f, Tag(f, s[i])) && want[i] == Listed(s[i])
      ensures back[i] == want[i] <==> Genuine(f, s[i])
    {
      RoundTripExactlyWhenGenuine(f, s[i]);
    }
    if Genuine(f, v) {
      assert back == want;
    }
  }

  lemma {:induction false} RoundTripOfEntries(f: Formats, m: map<string, Value>)
    requires f.Faithful()
    ensures Restore(f, Tag(f, Dict(m))) == Listed(Dict(m)) <==> Genuine(f, Dict(m))
    decreases Dict(m), 0
  {
    var back := Back(f, m);
    RestoreOfDict(f, m);
    RecogniseExactly(f, back);
    ForgedStaysForged(f, m);
    forall k | k in m
      ensures Restore(f, Tag(f, m[k])) == Listed(m[k]) <==> Genuine(f, m[k])
    {
      RoundTripExactlyWhenGenuine(f, m[k]);
    }
    EntriesAgree(f, m);
  }

  lemma EntriesAgree(f: Formats, m: map<string, Value>)
    requires forall k :: k in m ==> (Restore(f, Tag(f, m[k])) == Listed(m[k]) <==> Genuine(f, m[k]))
    ensures Listed(Dict(m)) == Dict(Back(f, m)) <==> forall k :: k in m ==> Genuine(f, m[k])
    ensures Listed(Dict(m)).Dict?
  {
    hide Restore, Tag, Genuine;
    var want := map k | k in m :: Listed(m[k]);
    assert Listed(Dict(m)) == Dict(want);
    hide Listed;
    var back := Back(f, m);
    assert back.Keys == want.Keys == m.Keys;
    if forall k :: k in m ==> Genuine(f, m[k]) {
      assert forall k :: k in m ==> back[k] == want[k];
      assert back == want;
    } else {
      var k :| k in m && !Genuine(f, m[k]);
      assert back[k] != want[k];
    }
  }

  /** In particular: no dict with exactly the two tag keys, no surprise. */
  predicate NoTagShape(v: Value)
    decreases v
  {
    match v
    case Dict(m) => m.Keys != {TYPE_KEY, VALUE_KEY} && forall k :: k in m ==> NoTagShape(m[k])
    case List(s) => forall i :: 0 <= i < |s| ==> NoTagShape(s[i])
    case Tuple(s) => forall i :: 0 <= i < |s| ==> NoTagShape(s[i])
    case _ => true
  }

  lemma {:induction false} NoTagShapeIsGenuine(f: Formats, v: Value)
    requires NoTagShape(v)
    ensures Genuine(f, v)
    decreases v
  {
    match v
    case Dict(m) =>
      forall k | k in m ensures Genuine(f, m[k]) {
        NoTagShapeIsGenuine(f, m[k]);
      }
    case List(s) =>
      forall i | 0 <= i < |s| ensures Genuine(f, s[i]) {
        NoTagShapeIsGenuine(f, s[i]);
      }
    case Tuple(s) =>
      forall i | 0 <= i < |s| ensures Genuine(f, s[i]) {
        NoTagShapeIsGenuine(f, s[i]);
      }
    case _ =>
  }

  lemma {:induction false} RoundTrip(f: Formats, v: Value)
    requires f.Faithful() && NoTagShape(v)
    ensures Restore(f, Tag(f, v)) == Listed(v)
  {
    NoTagShapeIsGenuine(f, v);
    RoundTripExactlyWhenGenuine(f, v);
  }

  /** What goes to Redis is JSON, whatever the value. */
  lemma {:induction false} TaggedIsJson(f: Formats, v: Value)
    ensures IsJson(Tag(f, v))
    decreases v
  {
    match v
    case Dict(m) =>
      forall k | k in m ensures IsJson(Tag(f, m[k])) {
        TaggedIsJson(f, m[k]);
      }
    case List(s) =>
      forall i | 0 <= i < |s| ensures IsJson(Tag(f, s[i])) {
        TaggedIsJson(f, s[i]);
      }
    case Tuple(s) =>
      forall i | 0 <= i < |s| ensures IsJson(Tag(f, s[i])) {
        TaggedIsJson(f, s[i]);
      }
    case _ =>
  }

  /** Restoring twice changes nothing more, for every value and any text formats. */
  lemma {:induction false} RestoreIsIdempotent(f: Formats, v: Value)
    ensures Restore(f, Restore(f, v)) == Restore(f, v)
    decreases v
  {
    match v
    case Dict(m) =>
      var once := map k | k in m :: Restore(f, m[k]);
      forall k | k in once ensures Restore(f, once[k]) == once[k] {
        RestoreIsIdempotent(f, m[k]);
      }
      RestoredEntriesStay(f, once);
      assert Restore(f, v) == Recognise(f, once);
      RecogniseExactly(f, once);
      hide Recognise;
    case List(s) =>
      var once := Restore(f, v).items;
      forall i | 0 <= i < |s| ensures Restore(f, once[i]) == once[i] {
        RestoreIsIdempotent(f, s[i]);
      }
      assert Restore(f, List(once)).items == once;
    case _ =>
  }

  lemma RestoredEntriesStay(f: Formats, m: map<string, Value>)
    requires forall k :: k in m ==> Restore(f, m[k]) == m[k]
    ensures Restore(f, Dict(m)) == Recognise(f, m)
  {
    hide Recognise;
    assert m == map k | k in m :: Restore(f, m[k]);
  }
}
