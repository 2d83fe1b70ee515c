/** Documents as the store hands them out, and the two utilities that render their
    identifiers as strings: `convert_objectid` (a structural map over a whole tree)
    and `fix_id` (a rewrite of the top-level `_id` of each record). */
module Documents {
  import opened Base

  newtype byte = x: int | 0 <= x < 256

  /** A BSON-like value. Dictionaries are maps: the JSON encoder sorts keys, so their
      order is never observable in a reply. `Other` stands for every remaining BSON
      value (dates, binary data, ...), carried with the text `str()` gives for it. */
  datatype Json =
    | Null
    | Bool(b: bool)
    | Int(i: int)
    | Float(x: real)
    | Str(s: string)
    | ObjectId(oid: seq<byte>)
    | Other(text: string)
    | List(items: seq<Json>)
    | Dict(fields: map<string, Json>)

  /** A top-level document: one movie, one review, one history entry. */
  type Record = map<string, Json>

  // ---------------------------------------------------------------------------
  // str() of an identifier

  /** The lower-case hexadecimal digit for 0 <= d < 16. */
  function HexDigit(d: int): char
    requires 0 <= d < 16
  {
    if d < 10 then ('0' as int + d) as char else ('a' as int + d - 10) as char
  }

  /** The value of a lower-case hexadecimal digit, or -1 for any other character. */
  function DigitValue(c: char): (d: int)
    ensures -1 <= d < 16
  {
    if '0' <= c <= '9' then c as int - '0' as int
    else if 'a' <= c <= 'f' then c as int - 'a' as int + 10
    else -1
  }

  predicate IsHexDigit(c: char) {
    '0' <= c <= '9' || 'a' <= c <= 'f'
  }

  /** `str(ObjectId(...))`: two lower-case hexadecimal digits per byte, high nibble first. */
  function Hex(bs: seq<byte>): (h: string)
    ensures |h| == 2 * |bs|
    ensures forall i :: 0 <= i < |h| ==> IsHexDigit(h[i])
  {
    if bs == [] then []
    else [HexDigit(bs[0] as int / 16), HexDigit(bs[0] as int % 16)] + Hex(bs[1..])
  }

  /** Reads a hexadecimal string back into bytes; `None` when it is not one. */
  function Unhex(h: string): Option<seq<byte>>
    decreases |h|
  {
    if h == [] then Some([])
    else if |h| < 2 then None
    else
      var hi, lo := DigitValue(h[0]), DigitValue(h[1]);
      if hi < 0 || lo < 0 then None
      else match Unhex(h[2..])
        case None => None
        case Some(rest) => Some([(hi * 16 + lo) as byte] + rest)
  }

  lemma DigitValueOfHexDigit(d: int)
    requires 0 <= d < 16
    ensures DigitValue(HexDigit(d)) == d
  {
  }

  /** Rendering an ObjectId loses nothing: its bytes can be read back from the string. */
  lemma {:induction false} UnhexHex(bs: seq<byte>)
    ensures Unhex(Hex(bs)) == Some(bs)
  {
    if bs != [] {
      var b := bs[0] as int;
      DigitValueOfHexDigit(b / 16);
      DigitValueOfHexDigit(b % 16);
      var h := Hex(bs);
      assert h[0] == HexDigit(b / 16) && h[1] == HexDigit(b % 16);
      assert h[2..] == Hex(bs[1..]);
      UnhexHex(bs[1..]);
      assert (b / 16 * 16 + b % 16) as byte == bs[0];
      assert Unhex(h) == Some([bs[0]] + bs[1..]);
      assert [bs[0]] + bs[1..] == bs;
    }
  }

  /** Distinct ObjectIds render as distinct strings. */
  lemma HexInjective(a: seq<byte>, b: seq<byte>)
    requires Hex(a) == Hex(b)
    ensures a == b
  {
    UnhexHex(a);
    UnhexHex(b);
  }

  /** `str(n)` for a natural number. */
  function DecimalDigits(n: nat): (s: string)
    ensures |s| > 0
    ensures forall i :: 0 <= i < |s| ==> '0' <= s[i] <= '9'
    ensures |s| > 1 ==> s[0] != '0'
    ensures n < 10 <==> |s| == 1
  {
    if n < 10 then [('0' as int + n) as char]
    else DecimalDigits(n / 10) + [('0' as int + n % 10) as char]
  }

  /** Reads a run of decimal digits back into a number; `None` when it is not one. */
  function DecimalValue(s: string): Option<nat>
    decreases |s|
  {
    if s == [] || !('0' <= s[|s| - 1] <= '9') then None
    else
      var d := (s[|s| - 1] as int - '0' as int) as nat;
      if |s| == 1 then Some(d)
      else match DecimalValue(s[..|s| - 1])
        case None => None
        case Some(v) => Some(v * 10 + d)
  }

  /** The digits of `str(n)` spell `n`. */
  lemma {:induction false} DecimalValueOfDigits(n: nat)
    ensures DecimalValue(DecimalDigits(n)) == Some(n)
  {
    if n >= 10 {
      DecimalValueOfDigits(n / 10);
      var s := DecimalDigits(n);
      assert s[..|s| - 1] == DecimalDigits(n / 10);
    }
  }

  /** Reads an optionally signed decimal integer. */
  function IntValue(s: string): Option<int> {
    if |s| > 0 && s[0] == '-' then
      match DecimalValue(s[1..])
      case None => None
      case Some(v) => Some(-(v as int))
    else
      match DecimalValue(s)
      case None => None
      case Some(v) => Some(v as int)
  }

  /** `str(i)` for an integer: its text reads back as `i`. */
  function IntText(i: int): (r: string)
    ensures |r| > 0
    ensures r[0] == '-' <==> i < 0
    ensures r != "-0"
    ensures IntValue(r) == Some(i)
  {
    if i < 0 then
      DecimalValueOfDigits(-i);
      var d := DecimalDigits(-i);
      assert ("-" + d)[1..] == d;
      "-" + d
    else
      DecimalValueOfDigits(i);
      DecimalDigits(i)
  }

  /** Distinct integers render as distinct strings. */
  lemma IntTextInjective(i: int, j: int)
    requires IntText(i) == IntText(j)
    ensures i == j
  {
  }

  /** `str(v)` for a value stored as an identifier. Python formats a float, a list or a
      dict with its own `repr` rules, which this model does not render. */
  function IdText(v: Json): (r: Result<string>)
    ensures v.ObjectId? ==> r == Ok(Hex(v.oid))
    ensures v.Str? ==> r == Ok(v.s)
    ensures v.Int? ==> r == Ok(IntText(v.i))
    ensures v.Null? ==> r == Ok("None")
    ensures v.Bool? ==> r == Ok(if v.b then "True" else "False")
    ensures v.Other? ==> r == Ok(v.text)
    ensures r.Err? <==> v.Float? || v.List? || v.Dict?
  {
    match v
    case Null => Ok("None")
    case Bool(b) => Ok(if b then "True" else "False")
    case Int(i) => Ok(IntText(i))
    case Str(s) => Ok(s)
    case ObjectId(oid) => Ok(Hex(oid))
    case Other(text) => Ok(text)
    case Float(_) => Err(IdNotRendered)
    case List(_) => Err(IdNotRendered)
    case Dict(_) => Err(IdNotRendered)
  }

  // ---------------------------------------------------------------------------
  // convert_objectid

  /** No ObjectId anywhere in the tree. */
  predicate NoObjectId(j: Json) {
    match j
    case ObjectId(_) => false
    case List(items) => forall i | 0 <= i < |items| :: NoObjectId(items[i])
    case Dict(fields) => forall k | k in fields :: NoObjectId(fields[k])
    case _ => true
  }

  /** Replaces every ObjectId in the tree, at any depth, by its string; lists keep their
      length and order, dictionaries their keys. */
  function ConvertObjectId(j: Json): (r: Json)
    ensures j.List? <==> r.List?
    ensures j.List? ==> |r.items| == |j.items|
    ensures j.Dict? <==> r.Dict?
    ensures j.Dict? ==> r.fields.Keys == j.fields.Keys
    ensures NoObjectId(r)
  {
    match j
    case List(items) => List(seq(|items|, i requires 0 <= i < |items| => ConvertObjectId(items[i])))
    case Dict(fields) => Dict(map k | k in fields :: ConvertObjectId(fields[k]))
    case ObjectId(oid) => Str(Hex(oid))
    case _ => j
  }

  /** A tree that holds no ObjectId is left exactly as it is. */
  lemma {:induction false} ConvertObjectIdKeepsClean(j: Json)
    requires NoObjectId(j)
    ensures ConvertObjectId(j) == j
  {
    match j
    case List(items) =>
      forall i | 0 <= i < |items| ensures ConvertObjectId(items[i]) == items[i] {
        ConvertObjectIdKeepsClean(items[i]);
      }
      assert ConvertObjectId(j).items == items;
    case Dict(fields) =>
      forall k | k in fields ensures ConvertObjectId(fields[k]) == fields[k] {
        ConvertObjectIdKeepsClean(fields[k]);
      }
      assert ConvertObjectId(j).fields == fields;
    case _ =>
  }

  /** Converting twice is converting once. */
  lemma ConvertObjectIdIdempotent(j: Json)
    ensures ConvertObjectId(ConvertObjectId(j)) == ConvertObjectId(j)
  {
    ConvertObjectIdKeepsClean(ConvertObjectId(j));
  }

  /** A position in a tree: a list index or a dictionary key. */
  datatype Step = At(index: nat) | Field(key: string)

  /** The subtree at a path, if the path exists. */
  function Lookup(j: Json, path: seq<Step>): Option<Json>
    decreases |path|
  {
    if path == [] then Some(j)
    else match (j, path[0])
      case (List(items), At(i)) => if i < |items| then Lookup(items[i], path[1..]) else None
      case (Dict(fields), Field(k)) => if k in fields then Lookup(fields[k], path[1..]) else None
      case _ => None
  }

  /** The converted tree has exactly the positions of the original, and the subtree at
      each position is the converted original subtree. */
  lemma {:induction false} ConvertObjectIdAtPath(j: Json, path: seq<Step>)
    ensures Lookup(j, path).None? ==> Lookup(ConvertObjectId(j), path).None?
    ensures Lookup(j, path).Some? ==>
              Lookup(ConvertObjectId(j), path) == Some(ConvertObjectId(Lookup(j, path).value))
    decreases |path|
  {
    if path != [] {
      match (j, path[0])
      case (List(items), At(i)) =>
        if i < |items| { ConvertObjectIdAtPath(items[i], path[1..]); }
      case (Dict(fields), Field(k)) =>
        if k in fields { ConvertObjectIdAtPath(fields[k], path[1..]); }
      case _ =>
    }
  }

  /** At every position, an ObjectId becomes its string and every other leaf stays the same. */
  lemma ConvertObjectIdLeaves(j: Json, path: seq<Step>, leaf: Json)
    requires Lookup(j, path) == Some(leaf)
    requires !leaf.List? && !leaf.Dict?
    ensures leaf.ObjectId? ==> Lookup(ConvertObjectId(j), path) == Some(Str(Hex(leaf.oid)))
    ensures !leaf.ObjectId? ==> Lookup(ConvertObjectId(j), path) == Some(leaf)
  {
    ConvertObjectIdAtPath(j, path);
  }

  // ---------------------------------------------------------------------------
  // fix_id

  /** One record with its `_id` replaced by `str(_id)`; a record without `_id` raises. */
  function FixRecord(m: Record): (r: Result<Record>)
    ensures r.Ok? <==> "_id" in m && IdText(m["_id"]).Ok?
    ensures r.Err? && "_id" !in m ==> r.error == MissingId
    ensures r.Err? ==> r.error in {MissingId, IdNotRendered}
    ensures r.Ok? ==> r.value.Keys == m.Keys
    ensures r.Ok? ==> r.value["_id"] == Str(IdText(m["_id"]).value)
    ensures r.Ok? ==> forall k | k in m && k != "_id" :: r.value[k] == m[k]
  {
    if "_id" !in m then Err(MissingId)
    else match IdText(m["_id"])
      case Err(e) => Err(e)
      case Ok(s) => Ok(m["_id" := Str(s)])
  }

  /** `fix_id` over a list of records: every record fixed, in order; the first record
      that cannot be fixed aborts the whole list. */
  function FixId(ms: seq<Record>): (r: Result<seq<Record>>)
    ensures r.Ok? <==> forall i | 0 <= i < |ms| :: FixRecord(ms[i]).Ok?
    ensures r.Err? ==> r.error in {MissingId, IdNotRendered}
    ensures r.Ok? ==> |r.value| == |ms|
    ensures r.Ok? ==> forall i | 0 <= i < |ms| :: r.value[i] == FixRecord(ms[i]).value
  {
    if ms == [] then Ok([])
    else match FixRecord(ms[0])
      case Err(e) => Err(e)
      case Ok(m) =>
        match FixId(ms[1..])
        case Err(e) => Err(e)
        case Ok(rest) => Ok([m] + rest)
  }

  /** Fixing already fixed records changes nothing: the string of a string is itself. */
  lemma FixIdIdempotent(ms: seq<Record>, fixed: seq<Record>)
    requires FixId(ms) == Ok(fixed)
    ensures FixId(fixed) == Ok(fixed)
  {
    forall i | 0 <= i < |fixed| ensures FixRecord(fixed[i]) == Ok(fixed[i]) {
      var m := fixed[i];
      assert m["_id" := m["_id"]] == m;
    }
    var again := FixId(fixed).value;
    assert |again| == |fixed|;
    assert forall i | 0 <= i < |fixed| :: again[i] == fixed[i];
  }
}
