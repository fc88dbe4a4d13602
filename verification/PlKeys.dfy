/** plKeys and the length-prefixed narrow strings inside them (PlKey.cc, UruString.cc). */
module PlKeys {
  import opened Wire

  /** An object's key.  A missing name and an empty one are the same name. */
  datatype PlKey = PlKey(
    contents: Byte, quality: Byte, sequence: U32, locFlags: U16, classType: U16,
    objectId: U32, name: Bytes, cloneId: U32, clonePlayer: U32)

  predicate HasCloneIds(k: PlKey) { k.contents % 2 == 1 }
  predicate HasLoadMask(contents: Byte) { contents / 2 % 2 == 1 }

  /** The string's length field has twelve bits, and a final NUL is taken for a terminator. */
  predicate NameOk(name: Bytes) {
    |name| < 0x1000 && (name != [] ==> name[|name| - 1] != 0)
  }

  function Flip(bs: Bytes): (f: Bytes)
    ensures |f| == |bs|
  {
    seq(|bs|, i requires 0 <= i < |bs| => 0xFF - bs[i])
  }

  function DropNul(name: Bytes): Bytes {
    if name != [] && name[|name| - 1] == 0 then name[..|name| - 1] else name
  }

  /** A C string ends at its first NUL. */
  function CStr(name: Bytes): Bytes {
    if name == [] || name[0] == 0 then [] else [name[0]] + CStr(name[1..])
  }

  /** get_str with length, without terminator, bit-flipped. */
  function EncName(name: Bytes): Bytes
    requires |name| < 0x1000
  {
    Le16(0xF000 + |name|) + Flip(name)
  }

  /** The length-prefixed constructor: a string cut short by the end of the buffer is accepted. */
  function TakeName(bs: Bytes): (p: Parsed<Bytes>)
    ensures p.Ok? && |p.rest| <= |bs|
  {
    if |bs| < 2 then Ok([], [])
    else
      var v := Read16(bs, 0);
      var n := Min(v % 0x1000, |bs| - 2);
      var raw := bs[2..2 + n];
      Ok(DropNul(if v / 0x1000 == 0xF then Flip(raw) else raw), bs[2 + n..])
  }

  lemma NameRoundTrip(name: Bytes, rest: Bytes)
    requires NameOk(name)
    ensures TakeName(EncName(name) + rest) == Ok(name, rest)
  {
    var bs := EncName(name) + rest;
    assert bs == Le16(0xF000 + |name|) + (Flip(name) + rest);
    Take16Le16(0xF000 + |name|, Flip(name) + rest);
    assert bs[2..2 + |name|] == Flip(name);
    assert Flip(Flip(name)) == name;
    assert bs[2 + |name|..] == rest;
  }

  function EncClone(k: PlKey): Bytes {
    if HasCloneIds(k) then Le16(k.cloneId % 0x1_0000) + (Le16(0) + Le32(k.clonePlayer)) else []
  }

  function EncMask(k: PlKey): Bytes { if HasLoadMask(k.contents) then [k.quality] else [] }

  /** The class, object and name that follow the location of a key. */
  function EncObject(k: PlKey): Bytes
    requires |k.name| < 0x1000
  {
    Le16(k.classType) + (Le32(k.objectId) + (EncName(k.name) + EncClone(k)))
  }

  /** PlKey::write_out. */
  function EncKey(k: PlKey): Bytes
    requires |k.name| < 0x1000
  {
    [k.contents] + (Le32(k.sequence) + (Le16(k.locFlags) + (EncMask(k) + EncObject(k))))
  }

  /** PlKey::send_len. */
  function KeyLen(k: PlKey): nat {
    9 + 4 + (if HasLoadMask(k.contents) then 1 else 0) + (if HasCloneIds(k) then 8 else 0) + 2 + |k.name|
  }

  lemma KeyLenExact(k: PlKey)
    requires |k.name| < 0x1000
    ensures |EncKey(k)| == KeyLen(k)
  {
  }

  function TakeClone(k: PlKey, bs: Bytes): Parsed<PlKey> {
    if !HasCloneIds(k) then Ok(k, bs)
    else
      var (cloneId, bs) :- Take16(bs);
      var (_, bs) :- Take16(bs);
      var (clonePlayer, bs) :- Take32(bs);
      Ok(k.(cloneId := cloneId, clonePlayer := clonePlayer), bs)
  }

  function TakeObject(k: PlKey, bs: Bytes): Parsed<PlKey> {
    var (classType, bs) :- Take16(bs);
    var (objectId, bs) :- Take32(bs);
    var (name, bs) :- TakeName(bs);
    TakeClone(k.(classType := classType, objectId := objectId, name := name), bs)
  }

  /** PlKey::read_in. */
  function TakeKey(bs: Bytes): Parsed<PlKey> {
    var (contents, tail) :- Take8(bs);
    if |bs| < 15 + (if HasLoadMask(contents) then 2 else 0) then Fail(Truncated)
    else
      var (sequence, tail) :- Take32(tail);
      var (locFlags, tail) :- Take16(tail);
      var (quality, tail) :- (if HasLoadMask(contents) then Take8(tail) else Ok(0, tail));
      TakeObject(PlKey(contents, quality, sequence, locFlags, 0, 0, [], 0, 0), tail)
  }

  /** What of a key is transmitted: fields its contents flags do not announce come back as zero. */
  function KeySent(k: PlKey): PlKey {
    k.(quality := if HasLoadMask(k.contents) then k.quality else 0,
       cloneId := if HasCloneIds(k) then k.cloneId % 0x1_0000 else 0,
       clonePlayer := if HasCloneIds(k) then k.clonePlayer else 0)
  }

  /** read_in asks for one byte too many of a key with a load mask, so a minimal such key
      at the very end of a buffer is refused; every other key comes back. */
  predicate KeyTooShort(k: PlKey, rest: Bytes) {
    HasLoadMask(k.contents) && !HasCloneIds(k) && k.name == [] && rest == []
  }

  lemma CloneRoundTrip(k: PlKey, rest: Bytes)
    ensures TakeClone(KeySent(k).(cloneId := 0, clonePlayer := 0), EncClone(k) + rest) == Ok(KeySent(k), rest)
  {
    if HasCloneIds(k) {
      var c := k.cloneId % 0x1_0000;
      assert EncClone(k) + rest == Le16(c) + (Le16(0) + (Le32(k.clonePlayer) + rest));
      Take16Le16(c, Le16(0) + (Le32(k.clonePlayer) + rest));
      Take16Le16(0, Le32(k.clonePlayer) + rest);
      Take32Le32(k.clonePlayer, rest);
    } else {
      assert EncClone(k) + rest == rest;
    }
  }

  lemma ObjectRoundTrip(k: PlKey, rest: Bytes)
    requires NameOk(k.name)
    ensures TakeObject(KeySent(k).(classType := 0, objectId := 0, name := [], cloneId := 0, clonePlayer := 0),
                       EncObject(k) + rest) == Ok(KeySent(k), rest)
  {
    var t3 := EncClone(k) + rest;
    var t2 := EncName(k.name) + t3;
    var t1 := Le32(k.objectId) + t2;
    Assoc(EncName(k.name), EncClone(k), rest);
    Assoc(Le32(k.objectId), EncName(k.name) + EncClone(k), rest);
    Assoc(Le16(k.classType), Le32(k.objectId) + (EncName(k.name) + EncClone(k)), rest);
    assert EncObject(k) + rest == Le16(k.classType) + t1;
    Take16Le16(k.classType, t1);
    Take32Le32(k.objectId, t2);
    NameRoundTrip(k.name, t3);
    CloneRoundTrip(k, rest);
  }

  lemma KeyRoundTrip(k: PlKey, rest: Bytes)
    requires NameOk(k.name)
    ensures TakeKey(EncKey(k) + rest) ==
            if KeyTooShort(k, rest) then Fail(Truncated) else Ok(KeySent(k), rest)
  {
    var t3 := EncObject(k) + rest;
    var t2 := EncMask(k) + t3;
    var t1 := Le16(k.locFlags) + t2;
    var t0 := Le32(k.sequence) + t1;
    Assoc(EncMask(k), EncObject(k), rest);
    Assoc(Le16(k.locFlags), EncMask(k) + EncObject(k), rest);
    Assoc(Le32(k.sequence), Le16(k.locFlags) + (EncMask(k) + EncObject(k)), rest);
    Assoc([k.contents], Le32(k.sequence) + (Le16(k.locFlags) + (EncMask(k) + EncObject(k))), rest);
    assert EncKey(k) + rest == [k.contents] + t0;
    assert ([k.contents] + t0)[1..] == t0;
    KeyLenExact(k);
    Take32Le32(k.sequence, t1);
    Take16Le16(k.locFlags, t2);
    assert HasLoadMask(k.contents) ==> t2[1..] == t3;
    assert !HasLoadMask(k.contents) ==> t2 == t3;
    ObjectRoundTrip(k, rest);
  }
}
