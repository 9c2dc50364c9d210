/** `serialize_doc`: the JSON-safe form of a stored document. The internal
    `_id` becomes `id`, holding its string form, and every date-like value
    becomes its ISO text; everything else passes through. */
module Serialization {
  import opened ObjectIds
  import opened Values

  function DigitChar(d: nat): char
    requires d < 10
  {
    "0123456789"[d]
  }

  function NatText(n: nat): string
    decreases n
  {
    if n < 10 then [DigitChar(n)] else NatText(n / 10) + [DigitChar(n % 10)]
  }

  /** Python's `str()` of a value that sits in `_id` (always an ObjectId in
      documents the store created). */
  function StrOf(v: Value): string {
    match v
    case Str(s) => s
    case Int(i) => if i < 0 then "-" + NatText(-i) else NatText(i)
    case Bool(b) => if b then "True" else "False"
    case Date(m) => m.isoText
    case Oid(id) => ToString(id)
    case Null => "None"
  }

  /** One value made JSON-safe: anything with `isoformat` becomes its text. */
  function Render(v: Value): Value {
    if v.Date? then Str(v.moment.isoText) else v
  }

  function Renamed(doc: Record): Record {
    if IdKey in doc then (doc - {IdKey})[PublicIdKey := Str(StrOf(doc[IdKey]))] else doc
  }

  /** The specification of `serialize_doc`. */
  function Serialized(doc: Record): (r: Record)
    ensures IdKey !in r
    ensures r == map[] <==> doc == map[]
  {
    if doc == map[] then doc
    else
      var d := Renamed(doc);
      assert d != map[] by {
        if IdKey in doc {
          assert PublicIdKey in d;
        } else {
          var k0 :| k0 in doc;
          assert k0 in d;
        }
      }
      var r := map k | k in d :: Render(d[k]);
      assert r != map[] by {
        var k1 :| k1 in d;
        assert k1 in r;
      }
      r
  }

  /** `serialize_doc`: copy the document, move `_id` to `id`, then rewrite
      the date-like entries one at a time. The caller's document is a value
      and cannot change. */
  method SerializeDoc(doc: Record) returns (out: Record)
    ensures out == Serialized(doc)
  {
    if doc == map[] {
      return doc;
    }
    out := doc;
    if IdKey in out {
      var v := out[IdKey];
      out := out - {IdKey};
      out := out[PublicIdKey := Str(StrOf(v))];
    }
    ghost var renamed := out;
    var pending := out.Keys;
    while pending != {}
      invariant pending <= renamed.Keys
      invariant out.Keys == renamed.Keys
      invariant forall k :: k in renamed ==> out[k] == if k in pending then renamed[k] else Render(renamed[k])
      decreases pending
    {
      var k :| k in pending;
      var v := out[k];
      if v.Date? {
        out := out[k := Str(v.moment.isoText)];
      }
      pending := pending - {k};
    }
  }

  // -------------------------------------------------------------- lemmas

  /** An empty (falsy) document is returned as it is. */
  lemma SerializedEmpty()
    ensures Serialized(map[]) == map[]
  {
  }

  /** `_id` is gone and `id` holds its string form; for a stored ObjectId
      that is the identifier's 24-digit text. */
  lemma SerializedRenamesId(doc: Record)
    requires IdKey in doc
    ensures IdKey !in Serialized(doc)
    ensures PublicIdKey in Serialized(doc) && Serialized(doc)[PublicIdKey] == Str(StrOf(doc[IdKey]))
    ensures doc[IdKey].Oid? ==> Serialized(doc)[PublicIdKey] == Str(ToString(doc[IdKey].oid))
  {
    assert PublicIdKey in Renamed(doc);
  }

  /** The key set is kept, apart from the `_id` to `id` rename. */
  lemma SerializedKeys(doc: Record)
    ensures Serialized(doc).Keys == if IdKey in doc then doc.Keys - {IdKey} + {PublicIdKey} else doc.Keys
  {
  }

  /** Every other entry keeps its key; its value becomes the ISO text when it
      is date-like and is unchanged otherwise. */
  lemma SerializedValues(doc: Record, k: string)
    requires k in doc && k != IdKey && !(k == PublicIdKey && IdKey in doc)
    ensures k in Serialized(doc)
    ensures doc[k].Date? ==> Serialized(doc)[k] == Str(doc[k].moment.isoText)
    ensures !doc[k].Date? ==> Serialized(doc)[k] == doc[k]
  {
    assert k in Renamed(doc) && Renamed(doc)[k] == doc[k];
  }

  /** No date-like value survives serialisation. */
  lemma SerializedHasNoDates(doc: Record)
    ensures forall k :: k in Serialized(doc) ==> !Serialized(doc)[k].Date?
  {
  }

  /** Serialising twice is serialising once. */
  lemma SerializedIdempotent(doc: Record)
    ensures Serialized(Serialized(doc)) == Serialized(doc)
  {
    var s := Serialized(doc);
    if s != map[] {
      SerializedKeys(doc);
      assert IdKey !in s;
      assert Renamed(s) == s;
      SerializedHasNoDates(doc);
      assert forall k :: k in s ==> Render(s[k]) == s[k];
    }
  }
}
