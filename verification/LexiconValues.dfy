/** The conversions of `packages/lexicon/src/serialize.ts` between stored (IPLD) values and
    lexicon values, whose blob references remember how they were encoded
    (`packages/lexicon/src/blob-refs.ts`). */
module LexiconValues {
  import opened Wrappers

  datatype Cid = Cid(id: int)

  datatype Prim = Null | Bool(b: bool) | Number(n: int) | Text(s: string)

  /** A blob reference as it is stored: typed, or in the legacy untyped form. */
  datatype JsonBlobRef =
    | Typed(ref: Cid, mimeType: string, size: int)
    | Untyped(cid: string, mimeType: string)

  datatype BlobRef = BlobRef(ref: Cid, mimeType: string, size: int, original: JsonBlobRef)

  /** Values of either kind; only lexicon values hold blob references. */
  datatype Value =
    | Prim(prim: Prim)
    | Bytes(bytes: seq<int>)
    | Link(cid: Cid)
    | List(items: seq<Value>)
    | Obj(fields: map<string, Value>)
    | Blob(blob: BlobRef)

  ghost predicate IsIpld(v: Value) {
    match v
    case List(items) => forall i :: 0 <= i < |items| ==> IsIpld(items[i])
    case Obj(fields) => forall k :: k in fields ==> IsIpld(fields[k])
    case Blob(_) => false
    case _ => true
  }

  const PROTO: string := "__proto__"

  function StringAt(fields: map<string, Value>, key: string): Option<string> {
    if key in fields && fields[key].Prim? && fields[key].prim.Text? then Some(fields[key].prim.s) else None
  }

  /** `check.is(obj, typedJsonBlobRef)`, a strict schema. */
  predicate IsTyped(fields: map<string, Value>) {
    && fields.Keys == {"$type", "ref", "mimeType", "size"}
    && fields["$type"] == Prim(Text("blob"))
    && fields["ref"].Link?
    && StringAt(fields, "mimeType").Some?
    && fields["size"].Prim? && fields["size"].prim.Number?
  }

  /** `check.is(obj, untypedJsonBlobRef)`, a strict schema. */
  predicate IsUntyped(fields: map<string, Value>) {
    fields.Keys == {"cid", "mimeType"} && StringAt(fields, "cid").Some? && StringAt(fields, "mimeType").Some?
  }

  /** The cheap test first, then the schemas. */
  predicate IsBlob(fields: map<string, Value>) {
    && (StringAt(fields, "$type") == Some("blob") || (StringAt(fields, "cid").Some? && StringAt(fields, "mimeType").Some?))
    && (IsTyped(fields) || IsUntyped(fields))
  }

  /** `BlobRef.fromJsonRef`: None if the CID text of an untyped reference does not parse. */
  function FromJsonRef(parseCid: string -> Option<Cid>, fields: map<string, Value>): Option<BlobRef>
    requires IsTyped(fields) || IsUntyped(fields)
  {
    var mimeType := StringAt(fields, "mimeType").value;
    if IsTyped(fields) then
      var ref, size := fields["ref"].cid, fields["size"].prim.n;
      Some(BlobRef(ref, mimeType, size, Typed(ref, mimeType, size)))
    else
      var cid := StringAt(fields, "cid").value;
      if parseCid(cid).None? then None
      else Some(BlobRef(parseCid(cid).value, mimeType, -1, Untyped(cid, mimeType)))
  }

  /** The object that a reference was read from, or would be written as. */
  function Fields(j: JsonBlobRef): map<string, Value> {
    match j
    case Typed(ref, mimeType, size) => map[
      "$type" := Prim(Text("blob")), "ref" := Link(ref), "mimeType" := Prim(Text(mimeType)), "size" := Prim(Number(size))]
    case Untyped(cid, mimeType) => map["cid" := Prim(Text(cid)), "mimeType" := Prim(Text(mimeType))]
  }

  /** `ipldToLex`; None if it throws. A field assigned to `__proto__` is converted, but does
      not become a field of the result. */
  function IpldToLex(parseCid: string -> Option<Cid>, v: Value): Option<Value> {
    match v
    case List(items) =>
      if exists i :: 0 <= i < |items| && IpldToLex(parseCid, items[i]).None? then None
      else Some(List(seq(|items|, i requires 0 <= i < |items| => IpldToLex(parseCid, items[i]).value)))
    case Obj(fields) =>
      if IsBlob(fields) then
        var b := FromJsonRef(parseCid, fields);
        if b.None? then None else Some(Blob(b.value))
      else if exists k :: k in fields && IpldToLex(parseCid, fields[k]).None? then None
      else Some(Obj(map k | k in fields && k != PROTO :: IpldToLex(parseCid, fields[k]).value))
    case _ => Some(v)
  }

  /** `lexToIpld` */
  function LexToIpld(v: Value): Value {
    match v
    case List(items) => List(seq(|items|, i requires 0 <= i < |items| => LexToIpld(items[i])))
    case Obj(fields) => Obj(map k | k in fields && k != PROTO :: LexToIpld(fields[k]))
    case Blob(b) => Obj(Fields(b.original))
    case _ => v
  }

  /** No object, at any depth, has a field of its own named `__proto__`. */
  ghost predicate ProtoFree(v: Value) {
    match v
    case List(items) => forall i :: 0 <= i < |items| ==> ProtoFree(items[i])
    case Obj(fields) => PROTO !in fields && forall k :: k in fields ==> ProtoFree(fields[k])
    case _ => true
  }

  /** A blob reference keeps the form it was read from, typed or untyped, field by field. */
  lemma BlobKeepsItsForm(parseCid: string -> Option<Cid>, fields: map<string, Value>)
    requires IsTyped(fields) || IsUntyped(fields)
    requires FromJsonRef(parseCid, fields).Some?
    ensures var b := FromJsonRef(parseCid, fields).value;
      Fields(b.original) == fields && (b.original.Typed? <==> IsTyped(fields))
    ensures !IsTyped(fields) ==> FromJsonRef(parseCid, fields).value.size == -1
    ensures ProtoFree(Obj(fields))
  {
    var b := FromJsonRef(parseCid, fields).value;
    if IsTyped(fields) {
      assert forall k :: k in fields ==> fields[k] == Fields(b.original)[k];
    } else {
      assert forall k :: k in fields ==> fields[k] == Fields(b.original)[k];
    }
  }

  /** Reading a stored value and writing it back gives the same value exactly when no object
      in it has a field named `__proto__`. */
  lemma {:induction false} RoundTripExactly(parseCid: string -> Option<Cid>, v: Value)
    requires IsIpld(v) && IpldToLex(parseCid, v).Some?
    ensures LexToIpld(IpldToLex(parseCid, v).value) == v <==> ProtoFree(v)
  {
    match v
    case List(items) =>
      forall i | 0 <= i < |items|
        ensures IpldToLex(parseCid, items[i]).Some?
        ensures LexToIpld(IpldToLex(parseCid, items[i]).value) == items[i] <==> ProtoFree(items[i])
      {
        RoundTripExactly(parseCid, items[i]);
      }
      ListRoundTrip(parseCid, items);
    case Obj(fields) =>
      if IsBlob(fields) {
        BlobKeepsItsForm(parseCid, fields);
      } else {
        forall k | k in fields
          ensures IpldToLex(parseCid, fields[k]).Some?
          ensures LexToIpld(IpldToLex(parseCid, fields[k]).value) == fields[k] <==> ProtoFree(fields[k])
        {
          RoundTripExactly(parseCid, fields[k]);
        }
        ObjRoundTrip(parseCid, fields);
      }
    case _ =>
  }

  lemma ListRoundTrip(parseCid: string -> Option<Cid>, items: seq<Value>)
    requires IpldToLex(parseCid, List(items)).Some?
    requires forall i :: 0 <= i < |items| ==> IpldToLex(parseCid, items[i]).Some?
    ensures LexToIpld(IpldToLex(parseCid, List(items)).value) == List(items) <==>
      forall i :: 0 <= i < |items| ==> LexToIpld(IpldToLex(parseCid, items[i]).value) == items[i]
  {
    var out := LexToIpld(IpldToLex(parseCid, List(items)).value);
    assert |out.items| == |items|;
    assert forall i :: 0 <= i < |items| ==> out.items[i] == LexToIpld(IpldToLex(parseCid, items[i]).value);
    if forall i :: 0 <= i < |items| ==> LexToIpld(IpldToLex(parseCid, items[i]).value) == items[i] {
      assert out.items == items;
    }
  }

  lemma ObjRoundTrip(parseCid: string -> Option<Cid>, fields: map<string, Value>)
    requires !IsBlob(fields) && IpldToLex(parseCid, Obj(fields)).Some?
    requires forall k :: k in fields ==> IpldToLex(parseCid, fields[k]).Some?
    ensures LexToIpld(IpldToLex(parseCid, Obj(fields)).value) == Obj(fields) <==>
      PROTO !in fields && forall k :: k in fields ==> LexToIpld(IpldToLex(parseCid, fields[k]).value) == fields[k]
  {
    var out := LexToIpld(IpldToLex(parseCid, Obj(fields)).value);
    assert forall k :: k in out.fields <==> k in fields && k != PROTO;
    assert forall k :: k in out.fields ==> out.fields[k] == LexToIpld(IpldToLex(parseCid, fields[k]).value);
    if PROTO !in fields && forall k :: k in fields ==> LexToIpld(IpldToLex(parseCid, fields[k]).value) == fields[k] {
      assert out.fields == fields;
    }
  }

  /** An object that is read, but not written back as it was. */
  lemma {:induction false} ProtoFieldIsLost(parseCid: string -> Option<Cid>)
    ensures var v := Obj(map[PROTO := Prim(Null)]);
      IpldToLex(parseCid, v) == Some(Obj(map[])) && LexToIpld(IpldToLex(parseCid, v).value) == Obj(map[])
  {
    var fields := map[PROTO := Prim(Null)];
    assert PROTO in fields && !IsBlob(fields);
    assert IpldToLex(parseCid, fields[PROTO]).Some?;
    assert IpldToLex(parseCid, Obj(fields)).value.fields.Keys == {};
  }

  // ------------------------------------------------- where blob references appear

  /** The fields of a typed reference, or of an untyped one. */
  ghost predicate IsForm(fields: map<string, Value>) {
    exists j :: fields == Fields(j)
  }

  lemma TypedFields(ref: Cid, mimeType: string, size: int)
    ensures var fields := Fields(Typed(ref, mimeType, size));
      IsTyped(fields) && IsBlob(fields) && fields["ref"] == Link(ref) && fields["size"] == Prim(Number(size))
      && StringAt(fields, "mimeType") == Some(mimeType)
  {
    assert Fields(Typed(ref, mimeType, size)).Keys == {"$type", "ref", "mimeType", "size"};
  }

  lemma UntypedFields(cid: string, mimeType: string)
    ensures var fields := Fields(Untyped(cid, mimeType));
      IsUntyped(fields) && !IsTyped(fields) && IsBlob(fields)
      && StringAt(fields, "cid") == Some(cid) && StringAt(fields, "mimeType") == Some(mimeType)
  {
    var fields := Fields(Untyped(cid, mimeType));
    assert fields.Keys == {"cid", "mimeType"} && "size" !in fields;
  }

  lemma TypedIsForm(fields: map<string, Value>)
    requires IsTyped(fields)
    ensures fields == Fields(Typed(fields["ref"].cid, StringAt(fields, "mimeType").value, fields["size"].prim.n))
  {
    var other := Fields(Typed(fields["ref"].cid, StringAt(fields, "mimeType").value, fields["size"].prim.n));
    assert forall k :: k in fields ==> fields[k] == other[k];
  }

  lemma UntypedIsForm(fields: map<string, Value>)
    requires IsUntyped(fields)
    ensures fields == Fields(Untyped(StringAt(fields, "cid").value, StringAt(fields, "mimeType").value))
  {
    var other := Fields(Untyped(StringAt(fields, "cid").value, StringAt(fields, "mimeType").value));
    assert forall k :: k in fields ==> fields[k] == other[k];
  }

  /** The hints and the schemas together recognise exactly the two forms. */
  lemma IsBlobExactly(fields: map<string, Value>)
    ensures IsBlob(fields) <==> IsForm(fields)
  {
    if IsBlob(fields) {
      if IsTyped(fields) { TypedIsForm(fields); } else { UntypedIsForm(fields); }
    }
    if j :| fields == Fields(j) {
      match j
      case Typed(ref, mimeType, size) => TypedFields(ref, mimeType, size);
      case Untyped(cid, mimeType) => UntypedFields(cid, mimeType);
    }
  }

  /** A typed reference is read as a blob with its parts, whatever the CID parser does. */
  lemma {:induction false} TypedReads(parseCid: string -> Option<Cid>, ref: Cid, mimeType: string, size: int)
    ensures var j := Typed(ref, mimeType, size);
      IpldToLex(parseCid, Obj(Fields(j))) == Some(Blob(BlobRef(ref, mimeType, size, j)))
  {
    TypedFields(ref, mimeType, size);
  }

  /** An untyped one is read as a blob of no known size if its CID text parses, and else not at all. */
  lemma {:induction false} UntypedReads(parseCid: string -> Option<Cid>, cid: string, mimeType: string)
    ensures var j := Untyped(cid, mimeType);
      IpldToLex(parseCid, Obj(Fields(j))) ==
        if parseCid(cid).None? then None else Some(Blob(BlobRef(parseCid(cid).value, mimeType, -1, j)))
  {
    UntypedFields(cid, mimeType);
  }

  /** `w` is `v` place by place, with a blob exactly where `v` has one of the two forms. */
  ghost predicate BlobsInPlace(v: Value, w: Value) {
    match v
    case List(items) => w.List? && |w.items| == |items| && forall i :: 0 <= i < |items| ==> BlobsInPlace(items[i], w.items[i])
    case Obj(fields) =>
      if IsForm(fields) then w.Blob? && Fields(w.blob.original) == fields
      else w.Obj? && w.fields.Keys == fields.Keys - {PROTO} && forall k :: k in fields && k != PROTO ==> BlobsInPlace(fields[k], w.fields[k])
    case _ => w == v
  }

  /** Somewhere in `v` there is an untyped reference whose CID text does not parse. */
  ghost predicate Unparsable(parseCid: string -> Option<Cid>, v: Value) {
    match v
    case List(items) => exists i :: 0 <= i < |items| && Unparsable(parseCid, items[i])
    case Obj(fields) =>
      if IsForm(fields) then exists cid, mimeType :: fields == Fields(Untyped(cid, mimeType)) && parseCid(cid).None?
      else exists k :: k in fields && Unparsable(parseCid, fields[k])
    case _ => false
  }

  lemma FormReads(parseCid: string -> Option<Cid>, fields: map<string, Value>)
    requires IsForm(fields)
    ensures IpldToLex(parseCid, Obj(fields)).None? <==> Unparsable(parseCid, Obj(fields))
    ensures IpldToLex(parseCid, Obj(fields)).Some? ==> BlobsInPlace(Obj(fields), IpldToLex(parseCid, Obj(fields)).value)
  {
    var j :| fields == Fields(j);
    match j {
      case Typed(ref, mimeType, size) =>
        TypedReads(parseCid, ref, mimeType, size);
        forall cid, m ensures fields != Fields(Untyped(cid, m)) {
          TypedFields(ref, mimeType, size);
          UntypedFields(cid, m);
        }
      case Untyped(cid, mimeType) =>
        UntypedReads(parseCid, cid, mimeType);
        forall c, m | fields == Fields(Untyped(c, m)) ensures c == cid {
          UntypedFields(cid, mimeType);
          UntypedFields(c, m);
        }
    }
  }

  /** Reading fails exactly on such a text, and otherwise puts a blob at every place, however
      deep, that has one of the two forms, and nowhere else. */
  lemma {:induction false} ReadsInPlace(parseCid: string -> Option<Cid>, v: Value)
    requires IsIpld(v)
    ensures IpldToLex(parseCid, v).None? <==> Unparsable(parseCid, v)
    ensures IpldToLex(parseCid, v).Some? ==> BlobsInPlace(v, IpldToLex(parseCid, v).value)
  {
    match v
    case List(items) =>
      forall i | 0 <= i < |items|
        ensures IpldToLex(parseCid, items[i]).None? <==> Unparsable(parseCid, items[i])
        ensures IpldToLex(parseCid, items[i]).Some? ==> BlobsInPlace(items[i], IpldToLex(parseCid, items[i]).value)
      {
        ReadsInPlace(parseCid, items[i]);
      }
    case Obj(fields) =>
      IsBlobExactly(fields);
      if IsForm(fields) {
        FormReads(parseCid, fields);
      } else {
        forall k | k in fields
          ensures IpldToLex(parseCid, fields[k]).None? <==> Unparsable(parseCid, fields[k])
          ensures IpldToLex(parseCid, fields[k]).Some? ==> BlobsInPlace(fields[k], IpldToLex(parseCid, fields[k]).value)
        {
          ReadsInPlace(parseCid, fields[k]);
        }
      }
    case _ =>
  }
}
