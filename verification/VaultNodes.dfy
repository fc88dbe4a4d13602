/** Vault nodes: a bit field says which of 32 fields a node has (VaultNode.cc). */
module VaultNodes {
  import opened Wire
  import opened Writers

  const FIELDS := 32

  type Bits = b: seq<bool> | |b| == FIELDS witness seq(FIELDS, _ => false)
  const NO_BITS: Bits := seq(FIELDS, _ => false)

  /** How a field is stored: a number, a UUID, or data with a length in front. */
  datatype Kind = Number | Id | Data

  /** colspecs: the i-th bit's field. */
  function KindOf(i: nat): Kind {
    if i == 3 then Data
    else if i == 4 || i == 5 || 16 <= i < 20 then Id
    else if i < 16 then Number
    else Data
  }

  /** A field that was never set is zero, or no buffer. */
  datatype Field = Unset | Num(n: U32) | Buf(b: Bytes)

  predicate FieldOk(kind: Kind, f: Field) {
    match kind
    case Number => f.Num?
    case Id => f.Buf? && |f.b| == 16
    case Data => f.Buf? && |f.b| >= 4 && |f.b| == 4 + Read32(f.b, 0)
  }

  function EncField(f: Field): Bytes {
    match f
    case Unset => []
    case Num(n) => Le32(n)
    case Buf(b) => b
  }

  // ---------- The bit field as a word ----------

  function Pow2(k: nat): (p: nat)
    ensures p > 0
  {
    if k == 0 then 1 else 2 * Pow2(k - 1)
  }

  function Pack(b: seq<bool>): (n: nat)
    ensures n < Pow2(|b|)
  {
    if b == [] then 0 else (if b[0] then 1 else 0) + 2 * Pack(b[1..])
  }

  function Unpack(n: nat, k: nat): (b: seq<bool>)
    ensures |b| == k
  {
    if k == 0 then [] else [n % 2 == 1] + Unpack(n / 2, k - 1)
  }

  lemma {:induction false} UnpackPack(b: seq<bool>)
    ensures Unpack(Pack(b), |b|) == b
  {
    if b != [] {
      UnpackPack(b[1..]);
    }
  }

  function Word(b: Bits): U32 {
    WordSize();
    Pack(b)
  }

  lemma WordSize()
    ensures Pow2(FIELDS) == 0x1_0000_0000
  {
    Pow2Byte(0);
    Pow2Byte(8);
    Pow2Byte(16);
    Pow2Byte(24);
  }

  lemma Pow2Byte(k: nat)
    ensures Pow2(k + 8) == 256 * Pow2(k)
  {
    assert Pow2(k + 2) == 4 * Pow2(k);
    assert Pow2(k + 4) == 4 * Pow2(k + 2);
    assert Pow2(k + 6) == 4 * Pow2(k + 4);
    assert Pow2(k + 8) == 4 * Pow2(k + 6);
  }

  function FromWord(n: U32): Bits { Unpack(n, FIELDS) }

  /** The i-th field's bit has the weight 2^i. */
  lemma {:induction false} BitOf(n: nat, k: nat, i: nat)
    requires i < k
    ensures Unpack(n, k)[i] <==> n / Pow2(i) % 2 == 1
  {
    if i > 0 {
      hide Pow2;
      BitOf(n / 2, k - 1, i - 1);
      HalfFirst(n, Pow2(i - 1));
      Pow2Next(i - 1);
    }
  }

  lemma Pow2Next(k: nat)
    ensures Pow2(k + 1) == 2 * Pow2(k)
  {
  }

  lemma HalfFirst(n: nat, m: nat)
    requires m > 0
    ensures n / (2 * m) == n / 2 / m
  {
    var q, r := n / 2 / m, n / 2 % m;
    var rest := 2 * r + n % 2;
    assert n == (2 * m) * q + rest && 0 <= rest < 2 * m;
    Quotient(n, 2 * m, q, rest);
  }

  lemma Quotient(n: nat, d: nat, q: nat, r: nat)
    requires n == d * q + r && r < d
    ensures n / d == q
  {
    var p := n / d;
    assert n == d * p + n % d;
    if p > q {
      OneMoreTimes(d, q, p);
    } else if p < q {
      OneMoreTimes(d, p, q);
    }
  }

  lemma {:induction false} OneMoreTimes(d: nat, a: nat, b: nat)
    requires a < b
    ensures d * a + d <= d * b
    decreases b
  {
    assert d * b == d * (b - 1) + d;
    if a < b - 1 {
      OneMoreTimes(d, a, b - 1);
    }
  }

  lemma {:induction false} UnpackZero(k: nat, i: nat)
    requires i < k
    ensures !Unpack(0, k)[i]
  {
    if i > 0 {
      UnpackZero(k - 1, i - 1);
    }
  }

  // ---------- Which fields a type of node has ----------

  const Common: set<nat> := {0, 1, 2, 5, 6, 7}

  /** What a type has besides the common fields; other types are unknown. */
  function Special(t: nat): Option<set<nat>> {
    match t
    case 0x2 => Some({8, 9, 12, 16, 17, 20, 26})
    case 0x3 => Some({16, 17, 20})
    case 0x16 => Some({8, 20})
    case 0x17 => Some({8, 12, 16, 20, 26})
    case 0x18 => Some({})
    case 0x19 => Some({8, 20, 30})
    case 0x1a => Some({8, 9, 20, 28})
    case 0x1b => Some({8, 20, 30})
    case 0x1c => Some({8, 9, 30})
    case 0x1d => Some({8, 20, 28})
    case 0x1e => Some({8})
    case 0x21 => Some({8, 9, 10, 12, 13, 14, 16, 17, 21, 22, 23, 28})
    case 0x22 => Some({8})
    case 0x23 => Some({16, 28})
    case _ => None
  }

  /** all_bits_for_type */
  function Mask(t: nat): set<nat> {
    match Special(t)
    case None => {}
    case Some(own) => Common + own
  }

  function TypeOf(fields: seq<Field>): nat
    requires |fields| == FIELDS
  {
    if fields[7].Num? then fields[7].n else 0
  }

  /** The same table by fields: the types that have a field. */
  function TypesWith(i: nat): set<nat> {
    match i
    case 8 => {0x2, 0x16, 0x17, 0x19, 0x1a, 0x1b, 0x1c, 0x1d, 0x1e, 0x21, 0x22}
    case 9 => {0x2, 0x1a, 0x1c, 0x21}
    case 10 => {0x21}
    case 12 => {0x2, 0x17, 0x21}
    case 13 => {0x21}
    case 14 => {0x21}
    case 16 => {0x2, 0x3, 0x17, 0x21, 0x23}
    case 17 => {0x2, 0x3, 0x21}
    case 20 => {0x2, 0x3, 0x16, 0x17, 0x19, 0x1a, 0x1b, 0x1d}
    case 21 => {0x21}
    case 22 => {0x21}
    case 23 => {0x21}
    case 26 => {0x2, 0x17}
    case 28 => {0x1a, 0x1d, 0x21, 0x23}
    case 30 => {0x19, 0x1b, 0x1c}
    case _ =>
      if i in {0, 1, 2, 5, 6, 7} then
        {0x2, 0x3, 0x16, 0x17, 0x18, 0x19, 0x1a, 0x1b, 0x1c, 0x1d, 0x1e, 0x21, 0x22, 0x23}
      else {}
  }

  lemma FieldsOfTypes(t: nat, i: nat)
    ensures i in Mask(t) <==> t in TypesWith(i)
  {
  }

  lemma KindsOfFields(i: nat)
    requires i < FIELDS
    ensures KindOf(i).Data? <==> i in {3, 20, 21, 22, 23, 24, 25, 26, 27, 28, 29, 30, 31}
    ensures KindOf(i).Id? <==> i in {4, 5, 16, 17, 18, 19}
  {
  }

  /** What is sent: the fields that are set and belong to the type. */
  function Included(bits: Bits, fields: seq<Field>): (inc: Bits)
    requires |fields| == FIELDS
  {
    seq(FIELDS, i requires 0 <= i < FIELDS => bits[i] && i in Mask(TypeOf(fields)))
  }

  // ---------- Encoding and parsing ----------

  predicate AllOk(bits: Bits, fields: seq<Field>) {
    |fields| == FIELDS && forall i | 0 <= i < FIELDS :: if bits[i] then FieldOk(KindOf(i), fields[i])
        else fields[i].Unset?
  }

  function Pieces(bits: Bits, fields: seq<Field>): (p: seq<Bytes>)
    requires |fields| == FIELDS
    ensures |p| == FIELDS
  {
    seq(FIELDS, i requires 0 <= i < FIELDS => if bits[i] then EncField(fields[i]) else [])
  }

  /** The sum of the sizes of the fields that are set. */
  function Size(bits: Bits, fields: seq<Field>): nat
    requires |fields| == FIELDS
  {
    |Flat(Pieces(bits, fields))|
  }

  function EncNode(length: U32, bits: Bits, fields: seq<Field>): Bytes
    requires |fields| == FIELDS
  {
    var inc := Included(bits, fields);
    Le32(length) + (Le32(Word(inc)) + (Le32(0) + Flat(Pieces(inc, fields))))
  }

  function TakeField(kind: Kind, bs: Bytes): Parsed<Field> {
    match kind
    case Number => var (n, bs) :- Take32(bs); Ok(Num(n), bs)
    case Id => var (b, bs) :- TakeBytes(bs, 16); Ok(Buf(b), bs)
    case Data =>
      if |bs| < 4 then Fail(Truncated)
      else
        var (b, bs) :- TakeBytes(bs, 4 + Read32(bs, 0));
        Ok(Buf(b), bs)
  }

  /** The fields from the i-th on. */
  function TakeFields(bits: Bits, i: nat, bs: Bytes): Parsed<seq<Field>>
    requires i <= FIELDS
    decreases FIELDS - i
  {
    if i == FIELDS then Ok([], bs)
    else if !bits[i] then
      var (fs, bs) :- TakeFields(bits, i + 1, bs);
      Ok([Unset] + fs, bs)
    else
      var (f, bs) :- TakeField(KindOf(i), bs);
      var (fs, bs) :- TakeFields(bits, i + 1, bs);
      Ok([f] + fs, bs)
  }

  /** A buffer, from the length on, holds all fields its bit field announces. */
  predicate LenOk(buf: Bytes)
    requires |buf| >= 12
  {
    TakeFields(FromWord(Read32(buf, 4)), 0, buf[12..]).Ok?
  }

  lemma FieldRoundTrip(kind: Kind, f: Field, rest: Bytes)
    requires FieldOk(kind, f)
    ensures TakeField(kind, EncField(f) + rest) == Ok(f, rest)
  {
    hide Le32, Read32;
    match kind
    case Number => Take32Le32(f.n, rest);
    case Id => TakeBytesBack(f.b, rest);
    case Data =>
      ReadPrefix(f.b, rest);
      TakeBytesBack(f.b, rest);
  }

  lemma ReadPrefix(b: Bytes, rest: Bytes)
    requires |b| >= 4
    ensures Read32(b + rest, 0) == Read32(b, 0)
  {
  }

  lemma {:induction false} FieldsRoundTrip(bits: Bits, fields: seq<Field>, i: nat, rest: Bytes)
    requires AllOk(bits, fields) && i <= FIELDS
    ensures TakeFields(bits, i, Flat(Pieces(bits, fields)[i..]) + rest) == Ok(fields[i..], rest)
    decreases FIELDS - i
  {
    hide EncField, TakeField, FieldOk, KindOf;
    var ps := Pieces(bits, fields);
    if i == FIELDS {
      assert ps[i..] == [] && fields[i..] == [];
      assert Flat([]) + rest == rest;
    } else {
      FieldsRoundTrip(bits, fields, i + 1, rest);
      assert ps[i..][1..] == ps[i + 1..];
      Assoc(ps[i], Flat(ps[i + 1..]), rest);
      assert fields[i..] == [fields[i]] + fields[i + 1..];
      if bits[i] {
        FieldRoundTrip(KindOf(i), fields[i], Flat(ps[i + 1..]) + rest);
      } else {
        assert [] + (Flat(ps[i + 1..]) + rest) == Flat(ps[i + 1..]) + rest;
      }
    }
  }

  /** Every set field belongs to the node's type. */
  predicate OfType(bits: Bits, fields: seq<Field>)
    requires |fields| == FIELDS
  {
    forall i | 0 <= i < FIELDS && bits[i] :: i in Mask(TypeOf(fields))
  }

  lemma IncludedAll(bits: Bits, fields: seq<Field>)
    requires |fields| == FIELDS
    ensures OfType(bits, fields) <==> Included(bits, fields) == bits
  {
    if !OfType(bits, fields) {
      var i :| 0 <= i < FIELDS && bits[i] && i !in Mask(TypeOf(fields));
      assert Included(bits, fields)[i] != bits[i];
    }
  }

  lemma NodeHeader(length: U32, bits: Bits, fields: seq<Field>, rest: Bytes)
    requires |fields| == FIELDS
    ensures
      var buf, inc := EncNode(length, bits, fields) + rest, Included(bits, fields);
      && |buf| >= 12 && Read32(buf, 0) == length && Read32(buf, 4) == Word(inc) && Read32(buf, 8) == 0
      && buf[12..] == Flat(Pieces(inc, fields)) + rest
  {
    hide Le32, Read32, Flat, Pieces, Included, Word;
    var inc := Included(bits, fields);
    var data := Flat(Pieces(inc, fields));
    var t3 := data + rest;
    var t2 := Le32(0) + t3;
    var t1 := Le32(Word(inc)) + t2;
    var buf := EncNode(length, bits, fields) + rest;
    Assoc(Le32(0), data, rest);
    Assoc(Le32(Word(inc)), Le32(0) + data, rest);
    Assoc(Le32(length), Le32(Word(inc)) + (Le32(0) + data), rest);
    assert buf == Le32(length) + t1;
    Take32Le32(length, t1);
    Take32Le32(Word(inc), t2);
    Take32Le32(0, t3);
    assert buf[4..] == t1 && t1[4..] == t2 && t2[4..] == t3;
    assert buf[4..][4..] == buf[8..] && buf[8..][4..] == buf[12..];
    ReadFrom(buf, 4);
    ReadFrom(buf, 8);
  }

  lemma ReadFrom(b: Bytes, at: nat)
    requires at + 4 <= |b|
    ensures Read32(b, at) == Read32(b[at..], 0)
  {
  }

  /** Parsing what was sent gives the same fields back exactly if all that are set belong to the
      node's type. */
  lemma NodeRoundTrip(length: U32, bits: Bits, fields: seq<Field>, rest: Bytes)
    requires AllOk(bits, fields)
    ensures
      var buf := EncNode(length, bits, fields) + rest;
      && |buf| >= 12 && LenOk(buf)
      && (OfType(bits, fields) <==>
            TakeFields(FromWord(Read32(buf, 4)), 0, buf[12..]) == Ok(fields, rest) && FromWord(Read32(buf, 4)) == bits)
  {
    hide Pieces, Flat, Included, Mask, TakeFields, Pack, Unpack;
    var buf, inc := EncNode(length, bits, fields) + rest, Included(bits, fields);
    var sent := Sent(bits, fields);
    NodeHeader(length, bits, fields, rest);
    UnpackPack(inc);
    SentOk(bits, fields);
    FieldsRoundTrip(inc, sent, 0, rest);
    assert Pieces(inc, sent)[0..] == Pieces(inc, sent) && sent[0..] == sent;
    IncludedAll(bits, fields);
  }

  /** The fields that are sent, the others left out. */
  function Sent(bits: Bits, fields: seq<Field>): (r: seq<Field>)
    requires |fields| == FIELDS
    ensures |r| == FIELDS
  {
    seq(FIELDS, i requires 0 <= i < FIELDS => if Included(bits, fields)[i] then fields[i] else Unset)
  }

  lemma SentOk(bits: Bits, fields: seq<Field>)
    requires AllOk(bits, fields)
    ensures AllOk(Included(bits, fields), Sent(bits, fields))
    ensures Pieces(Included(bits, fields), Sent(bits, fields)) == Pieces(Included(bits, fields), fields)
    ensures Included(bits, fields) == bits ==> Sent(bits, fields) == fields
  {
    hide FieldOk, EncField, Mask;
  }

  // ---------- Nodes ----------

  lemma PieceSet(bits: Bits, fields: seq<Field>, i: nat, f: Field)
    requires |fields| == FIELDS && i < FIELDS
    ensures Size(bits[i := true], fields[i := f])
            == Size(bits, fields) - (if bits[i] then |EncField(fields[i])| else 0) + |EncField(f)|
    ensures bits[i] ==> bits[i := true] == bits && Size(bits, fields) >= |EncField(fields[i])|
  {
    hide EncField;
    var was, now := Pieces(bits, fields), Pieces(bits[i := true], fields[i := f]);
    assert now == was[i := EncField(f)];
    FlatUpdate(was, i, EncField(f));
  }

  lemma {:induction false} FlatUpdate(p: seq<Bytes>, i: nat, b: Bytes)
    requires i < |p|
    ensures |Flat(p)| >= |p[i]| && |Flat(p[i := b])| == |Flat(p)| - |p[i]| + |b|
  {
    if i == 0 {
      assert p[0 := b][1..] == p[1..];
    } else {
      assert p[i := b][1..] == p[1..][i - 1 := b];
      FlatUpdate(p[1..], i - 1, b);
    }
  }

  class Node {
    var length: nat
    var bits: Bits
    const fields: array<Field>

    /** The length is kept up to date: eight bytes of bit fields, and what is set. */
    ghost predicate Valid()
      reads this, fields
    {
      && fields.Length == FIELDS && AllOk(bits, fields[..])
      && length == 8 + Size(bits, fields[..])
    }

    constructor ()
      ensures Valid() && bits == NO_BITS && fresh(fields)
    {
      length, bits := 8, NO_BITS;
      fields := new Field[FIELDS](_ => Unset);
      new;
      NothingSet(fields[..]);
    }

    /** From a buffer whose length has been checked; nothing outside it is read. */
    constructor Parse(buf: Bytes)
      requires |buf| >= 12 && LenOk(buf)
      ensures Valid() && fresh(fields) && bits == FromWord(Read32(buf, 4))
      ensures TakeFields(bits, 0, buf[12..]).Ok? && fields[..] == TakeFields(bits, 0, buf[12..]).value
      ensures length == |buf| - |TakeFields(bits, 0, buf[12..]).rest| - 4
    {
      length, bits := 8, FromWord(Read32(buf, 4));
      fields := new Field[FIELDS](_ => Unset);
      new;
      hide Read32, FromWord, TakeFields, AllOk, Size;
      var offset := ReadFields(bits, buf, fields);
      length := offset - 4;
      ParsedOk(bits, buf[12..]);
    }

    /** num_ref, and the value stored through the reference; other fields are refused. */
    method SetNumber(bit: nat, value: U32) returns (ok: bool)
      requires Valid()
      modifies this`length, this`bits, fields
      ensures Valid() && (ok <==> bit < FIELDS && KindOf(bit).Number?)
      ensures ok ==> bits == old(bits)[bit := true] && fields[..] == old(fields[..])[bit := Num(value)]
      ensures !ok ==> bits == old(bits) && fields[..] == old(fields[..])
    {
      if bit >= FIELDS || KindOf(bit) != Number {
        return false;
      }
      PieceSet(bits, fields[..], bit, Num(value));
      if !bits[bit] {
        bits := bits[bit := true];
        length := length + 4;
      }
      fields[bit] := Num(value);
      assert fields[..] == old(fields[..])[bit := Num(value)];
      ok := true;
    }

    /** uuid_ptr, and the UUID copied to it. */
    method SetId(bit: nat, uuid: Bytes) returns (ok: bool)
      requires Valid() && |uuid| == 16
      modifies this`length, this`bits, fields
      ensures Valid() && (ok <==> bit < FIELDS && KindOf(bit).Id?)
      ensures ok ==> bits == old(bits)[bit := true] && fields[..] == old(fields[..])[bit := Buf(uuid)]
      ensures !ok ==> bits == old(bits) && fields[..] == old(fields[..])
    {
      if bit >= FIELDS || KindOf(bit) != Id {
        return false;
      }
      PieceSet(bits, fields[..], bit, Buf(uuid));
      if !bits[bit] {
        bits := bits[bit := true];
        length := length + 16;
      }
      fields[bit] := Buf(uuid);
      assert fields[..] == old(fields[..])[bit := Buf(uuid)];
      ok := true;
    }

    /** data_ptr, and the data copied to it; it may replace data of another length. */
    method SetData(bit: nat, data: Bytes) returns (ok: bool)
      requires Valid() && |data| < 0x1_0000_0000
      modifies this`length, this`bits, fields
      ensures Valid() && (ok <==> bit < FIELDS && KindOf(bit).Data?)
      ensures ok ==> bits == old(bits)[bit := true] && fields[..] == old(fields[..])[bit := Buf(Le32(|data|) + data)]
      ensures !ok ==> bits == old(bits) && fields[..] == old(fields[..])
    {
      if bit >= FIELDS || KindOf(bit) != Data {
        return false;
      }
      hide Read32, Le32;
      var f := Buf(Le32(|data|) + data);
      PieceSet(bits, fields[..], bit, f);
      ReadPrefix(Le32(|data|), data);
      Take32Le32(|data|, []);
      assert Le32(|data|) + [] == Le32(|data|);
      if fields[bit].Unset? {
        bits := bits[bit := true];
        length := length + |data| + 4;
      } else {
        var oldLen: nat := Read32(fields[bit].b, 0);
        length := length - (oldLen + 4);
        length := length + |data| + 4;
      }
      fields[bit] := f;
      assert fields[..] == old(fields[..])[bit := f];
      ok := true;
    }
  }

  lemma TakeStep(bits: Bits, i: nat, bs: Bytes, f: Field, rest: Bytes)
    requires i < FIELDS && TakeFields(bits, i, bs).Ok?
    requires if bits[i] then TakeField(KindOf(i), bs) == Ok(f, rest) else f.Unset? && rest == bs
    ensures TakeFields(bits, i + 1, rest).Ok? && TakeFields(bits, i + 1, rest).rest == TakeFields(bits, i, bs).rest
    ensures TakeFields(bits, i, bs).value == [f] + TakeFields(bits, i + 1, rest).value
  {
    hide TakeField, KindOf;
  }

  lemma FieldThere(bits: Bits, i: nat, bs: Bytes)
    requires i < FIELDS && TakeFields(bits, i, bs).Ok? && bits[i]
    ensures TakeField(KindOf(i), bs).Ok?
  {
    hide TakeField, KindOf;
  }

  /** The loop of the parsing constructor. */
  method ReadFields(bits: Bits, buf: Bytes, fields: array<Field>) returns (offset: nat)
    requires |buf| >= 12 && TakeFields(bits, 0, buf[12..]).Ok?
    requires fields.Length == FIELDS && forall k | 0 <= k < FIELDS :: fields[k] == Unset
    modifies fields
    ensures 12 <= offset <= |buf| && TakeFields(bits, 0, buf[12..]) == Ok(fields[..], buf[offset..])
  {
    hide TakeFields, TakeField, KindOf;
    offset := 12;
    ghost var all := TakeFields(bits, 0, buf[12..]);
    assert fields[..0] == [] && all.value == [] + all.value;
    for i := 0 to FIELDS
      invariant 12 <= offset <= |buf|
      invariant TakeFields(bits, i, buf[offset..]).Ok? && TakeFields(bits, i, buf[offset..]).rest == all.rest
      invariant all.value == fields[..i] + TakeFields(bits, i, buf[offset..]).value
      invariant forall k | i <= k < FIELDS :: fields[k] == Unset
    {
      ghost var bs, pre := buf[offset..], fields[..i];
      if bits[i] {
        FieldThere(bits, i, bs);
        var f;
        f, offset := ReadField(buf, offset, KindOf(i));
        fields[i] := f;
      }
      TakeStep(bits, i, bs, fields[i], buf[offset..]);
      ghost var tail := TakeFields(bits, i + 1, buf[offset..]).value;
      assert fields[..i + 1] == pre + [fields[i]];
      assert pre + ([fields[i]] + tail) == pre + [fields[i]] + tail;
    }
    TakeEnd(bits, buf[offset..]);
    assert fields[..FIELDS] == fields[..] && fields[..] + [] == fields[..];
  }

  lemma TakeEnd(bits: Bits, bs: Bytes)
    ensures TakeFields(bits, FIELDS, bs) == Ok([], bs)
  {
  }

  method ReadField(buf: Bytes, offset: nat, kind: Kind) returns (f: Field, next: nat)
    requires offset <= |buf| && TakeField(kind, buf[offset..]).Ok?
    ensures next <= |buf| && TakeField(kind, buf[offset..]) == Ok(f, buf[next..]) && next >= offset
  {
    ReadAt(buf, offset, kind);
    match kind
    case Number => f, next := Num(Read32(buf, offset)), offset + 4;
    case Id => f, next := Buf(buf[offset..offset + 16]), offset + 16;
    case Data =>
      var n := Read32(buf, offset);
      f, next := Buf(buf[offset..offset + 4 + n]), offset + 4 + n;
  }

  lemma NothingSet(fields: seq<Field>)
    requires |fields| == FIELDS && forall i | 0 <= i < FIELDS :: fields[i].Unset?
    ensures AllOk(NO_BITS, fields) && Size(NO_BITS, fields) == 0
  {
    AllEmpty(Pieces(NO_BITS, fields));
  }

  lemma {:induction false} AllEmpty(p: seq<Bytes>)
    requires forall i | 0 <= i < |p| :: p[i] == []
    ensures Flat(p) == []
  {
    if p != [] {
      AllEmpty(p[1..]);
    }
  }

  /** What is read where a field lies. */
  lemma ReadAt(buf: Bytes, at: nat, kind: Kind)
    requires at <= |buf| && TakeField(kind, buf[at..]).Ok?
    ensures
      var f := TakeField(kind, buf[at..]);
      match kind
      case Number => at + 4 <= |buf| && f.value == Num(Read32(buf, at)) && f.rest == buf[at + 4..]
      case Id => at + 16 <= |buf| && f.value == Buf(buf[at..at + 16]) && f.rest == buf[at + 16..]
      case Data =>
        && at + 4 + Read32(buf, at) <= |buf| && f.value == Buf(buf[at..at + 4 + Read32(buf, at)])
        && f.rest == buf[at + 4 + Read32(buf, at)..]
  {
    hide Read32;
    if at + 4 <= |buf| {
      ReadFrom(buf, at);
      assert buf[at..][4..] == buf[at + 4..];
    }
    if at + 16 <= |buf| {
      assert buf[at..][..16] == buf[at..at + 16] && buf[at..][16..] == buf[at + 16..];
    }
    if kind.Data? {
      var n := Read32(buf, at);
      assert buf[at..][..4 + n] == buf[at..at + 4 + n] && buf[at..][4 + n..] == buf[at + 4 + n..];
    }
  }

  /** Parsed fields are well formed, and take exactly the bytes that were read. */
  lemma ParsedOk(bits: Bits, bs: Bytes)
    requires TakeFields(bits, 0, bs).Ok?
    ensures
      var p := TakeFields(bits, 0, bs);
      AllOk(bits, p.value) && Size(bits, p.value) == |bs| - |p.rest|
  {
    ParsedFrom(bits, 0, bs);
    var p := TakeFields(bits, 0, bs);
    assert Pieces(bits, p.value)[0..] == Pieces(bits, p.value);
    PartPieces(bits, p.value, 0);
  }

  /** The pieces of the fields from the i-th on. */
  function PiecesFrom(bits: Bits, i: nat, fs: seq<Field>): (p: seq<Bytes>)
    requires i + |fs| == FIELDS
    ensures |p| == |fs|
  {
    seq(|fs|, k requires 0 <= k < |fs| => if bits[i + k] then EncField(fs[k]) else [])
  }

  lemma PartPieces(bits: Bits, fs: seq<Field>, i: nat)
    requires |fs| == FIELDS
    ensures PiecesFrom(bits, 0, fs) == Pieces(bits, fs)
  {
  }

  lemma {:induction false} ParsedFrom(bits: Bits, i: nat, bs: Bytes)
    requires i <= FIELDS && TakeFields(bits, i, bs).Ok?
    ensures
      var p := TakeFields(bits, i, bs);
      && i + |p.value| == FIELDS
      && (forall k | 0 <= k < |p.value| ::
            if bits[i + k] then FieldOk(KindOf(i + k), p.value[k]) else p.value[k].Unset?)
      && |Flat(PiecesFrom(bits, i, p.value))| == |bs| - |p.rest|
    decreases FIELDS - i
  {
    hide EncField, TakeField, FieldOk, KindOf, TakeFields, Flat, PiecesFrom;
    if i == FIELDS {
      TakeEnd(bits, bs);
      FlatOfNone();
      assert PiecesFrom(bits, i, []) == [];
    } else {
      if bits[i] {
        FieldThere(bits, i, bs);
        FieldTaken(KindOf(i), bs);
      }
      var f := if bits[i] then TakeField(KindOf(i), bs).value else Unset;
      var rest := if bits[i] then TakeField(KindOf(i), bs).rest else bs;
      TakeStep(bits, i, bs, f, rest);
      ParsedFrom(bits, i + 1, rest);
      PiecesFirst(bits, i, f, TakeFields(bits, i + 1, rest).value);
    }
  }

  lemma PiecesFirst(bits: Bits, i: nat, f: Field, fs: seq<Field>)
    requires i + 1 + |fs| == FIELDS
    ensures |Flat(PiecesFrom(bits, i, [f] + fs))|
            == (if bits[i] then |EncField(f)| else 0) + |Flat(PiecesFrom(bits, i + 1, fs))|
  {
    hide EncField;
    assert PiecesFrom(bits, i, [f] + fs)[1..] == PiecesFrom(bits, i + 1, fs);
  }

  lemma FieldTaken(kind: Kind, bs: Bytes)
    requires TakeField(kind, bs).Ok?
    ensures FieldOk(kind, TakeField(kind, bs).value)
    ensures |EncField(TakeField(kind, bs).value)| == |bs| - |TakeField(kind, bs).rest|
  {
  }
}
