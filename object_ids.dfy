/** Document identifiers. The handlers turn a path segment into an
    identifier with bson's `ObjectId(text)`. The model takes it to accept
    a text of 24 hexadecimal digits in either case and to raise on any
    other text; whitespace that `bytes.fromhex` might let through inside a
    24-character text is not modelled. `str(oid)` gives the 24 digits back
    in lower case. */
module ObjectIds {
  import opened Options

  const HexLength: nat := 24

  predicate IsHexDigit(c: char) {
    '0' <= c <= '9' || 'a' <= c <= 'f' || 'A' <= c <= 'F'
  }

  predicate IsLowerHexDigit(c: char) {
    '0' <= c <= '9' || 'a' <= c <= 'f'
  }

  /** A client-supplied identifier text that `ObjectId(text)` accepts. */
  predicate WellFormed(s: string) {
    |s| == HexLength && forall i :: 0 <= i < |s| ==> IsHexDigit(s[i])
  }

  function LowerHex(c: char): (d: char)
    requires IsHexDigit(c)
    ensures IsLowerHexDigit(d)
    ensures IsLowerHexDigit(c) ==> d == c
  {
    if 'A' <= c <= 'F' then (c as int - 'A' as int + 'a' as int) as char else c
  }

  /** An identifier, held as its canonical text. */
  datatype ObjectId = ObjectId(hex: string)

  /** The identifiers the store generates: 24 lower-case hex digits. */
  predicate Canonical(id: ObjectId) {
    |id.hex| == HexLength && forall i :: 0 <= i < |id.hex| ==> IsLowerHexDigit(id.hex[i])
  }

  /** `ObjectId(s)`: None stands for the exception the handlers turn into 400. */
  function Parse(s: string): (r: Option<ObjectId>)
    ensures r.Some? <==> WellFormed(s)
    ensures r.Some? ==> Canonical(r.value)
    ensures r.Some? ==> |r.value.hex| == |s| && forall i :: 0 <= i < |s| ==> r.value.hex[i] == LowerHex(s[i])
  {
    if WellFormed(s) then Some(ObjectId(seq(|s|, i requires 0 <= i < |s| => LowerHex(s[i])))) else None
  }

  /** `str(oid)`. */
  function ToString(id: ObjectId): (s: string)
    ensures Canonical(id) ==> WellFormed(s)
  {
    id.hex
  }

  /** The text a client receives for a stored identifier is well formed and
      parses back to that very identifier. */
  lemma ParseToString(id: ObjectId)
    requires Canonical(id)
    ensures WellFormed(ToString(id))
    ensures Parse(ToString(id)) == Some(id)
  {
    var s := ToString(id);
    assert WellFormed(s);
    assert Parse(s).value.hex == s;
  }

  /** Parsing ignores the case of the hex digits: texts that differ only in
      case name the same identifier. */
  lemma ParseIgnoresCase(s: string, t: string)
    requires WellFormed(s) && WellFormed(t)
    requires forall i :: 0 <= i < |s| ==> LowerHex(s[i]) == LowerHex(t[i])
    ensures Parse(s) == Parse(t)
  {
    assert Parse(s).value.hex == Parse(t).value.hex;
  }
}
