/** Formats byte by byte: what some values look like on the wire and in files. */
module Formats {
  import opened Wire
  import opened PlKeys
  import opened SdlModel
  import SdlRoundTrip
  import SdlMessage
  import FastDownload
  import ManifestSending
  import Writers
  import VaultNodes

  /** The lowest byte comes first. */
  lemma LittleEndian()
    ensures Le16(0x0102) == [2, 1] && Le32(0x01020304) == [4, 3, 2, 1]
    ensures Read16([2, 1], 0) == 0x0102 && Read32([4, 3, 2, 1], 0) == 0x01020304
  {
  }

  /** A name of two letters: twelve bits of length and four that say that the letters are flipped. */
  lemma NameBytes()
    ensures EncName([65, 66]) == [2, 0xF0, 0xBE, 0xBD]
  {
    assert EncName([65, 66]) == [0x02, 0xF0] + Flip([65, 66]);
  }

  /** One that is not flipped may bring its terminator. */
  lemma PlainNames()
    ensures TakeName([2, 0, 65, 66, 7]) == Ok([65, 66], [7])
    ensures TakeName([3, 0, 65, 66, 0]) == Ok([65, 66], [])
  {
    var a: Bytes, b: Bytes := [2, 0, 65, 66, 7], [3, 0, 65, 66, 0];
    assert Read16(a, 0) == 2 && a[2..4] == [65, 66] && a[4..] == [7];
    assert Read16(b, 0) == 3 && b[2..5] == [65, 66, 0] && [65, 66, 0][..2] == [65, 66] && b[5..] == [];
  }

  /** A key with clone numbers and a mask: the mask comes before the class, the clone numbers last. */
  lemma KeyBytes()
    ensures
      EncKey(PlKey(3, 7, 0x01020304, 0x0506, 0x0708, 0x090A0B0C, [65], 0x0D0E, 0x0F101112))
      == [3, 4, 3, 2, 1, 6, 5, 7, 8, 7, 0x0C, 0x0B, 0x0A, 9, 1, 0xF0, 0xBE, 0x0E, 0x0D, 0, 0, 0x12, 0x11, 0x10, 0x0F]
  {
    hide Le16, Le32, EncObject;
    LeBytes();
    ObjectBytes();
  }

  lemma ObjectBytes()
    ensures
      EncObject(PlKey(3, 7, 0x01020304, 0x0506, 0x0708, 0x090A0B0C, [65], 0x0D0E, 0x0F101112))
      == [8, 7, 0x0C, 0x0B, 0x0A, 9, 1, 0xF0, 0xBE, 0x0E, 0x0D, 0, 0, 0x12, 0x11, 0x10, 0x0F]
  {
    hide Le16, Le32;
    LeBytes();
    assert Flip([65]) == [0xBE];
  }

  /** The same key without them. */
  lemma PlainKeyBytes()
    ensures
      EncKey(PlKey(0, 7, 0x01020304, 0x0506, 0x0708, 0x090A0B0C, [], 0x0D0E, 0x0F101112))
      == [0, 4, 3, 2, 1, 6, 5, 8, 7, 0x0C, 0x0B, 0x0A, 9, 0, 0xF0]
  {
    hide Le16, Le32;
    LeBytes();
    assert Flip([]) == [];
  }

  lemma LeBytes()
    ensures Le32(0x01020304) == [4, 3, 2, 1] && Le16(0x0506) == [6, 5] && Le16(0x0708) == [8, 7]
    ensures Le32(0x090A0B0C) == [0x0C, 0x0B, 0x0A, 9] && Le16(0xF001) == [1, 0xF0] && Le16(0xF000) == [0, 0xF0]
    ensures Le16(0x0D0E) == [0x0E, 0x0D] && Le16(0) == [0, 0] && Le32(0x0F101112) == [0x12, 0x11, 0x10, 0x0F]
  {
  }

  // ---------- States ----------

  lemma OneVar(d: Desc, v: Var, indexed: bool)
    requires VarOk(d, v)
    ensures VarsOk(d, [Some(v)]) && Count([Some(v)]) == if Sent(v.flags) then 1 else 0
    ensures EncVars(d, [Some(v)], indexed) == if Sent(v.flags) then EncVar(d, v, indexed) else []
  {
    hide VarOk, EncVar, Sent;
    var vs, none: seq<Option<Var>> := [Some(v)], [];
    assert vs[1..] == none;
  }

  lemma OneSub(d: Desc, c: Sub)
    requires SubOk(d, c) && |d.structs| == 1
    ensures SubsOk(d, [Some(c)]) && (Sent(c.flags) ==> EncStructs(d, [Some(c)]) == [1] + EncSub(d, c, false))
  {
    hide SubOk, EncSub, Sent;
    var ss, none: seq<Option<Sub>> := [Some(c)], [];
    assert ss[1..] == none;
    assert Sent(c.flags) ==> EncSubs(d, ss, false) == EncSub(d, c, false) + [] == EncSub(d, c, false);
  }

  lemma NoSubs(d: Desc)
    ensures SubsOk(d, []) && EncStructs(d, []) == [0]
  {
  }

  lemma Parts(d: Desc, s: State)
    requires StateOk(d, s)
    ensures EncState(d, s) == EncHead(s) + (EncVars(d, s.vars, Count(s.vars) < |d.vars|) + EncStructs(d, s.structs))
  {
  }

  const OneInt := Desc([65], 1, [VarDesc(Int, 1)], [])

  lemma TimedMarks()
    ensures EncMarks(0x1C, Stamp(9, 0)) == [2, 0, 0, 0xF0, 0x1C, 9, 0, 0, 0, 0, 0, 0, 0]
  {
    hide Le32;
    SmallWords();
  }

  lemma TimedVar()
    ensures
      var v: Var := Entry(0, 0x1C, Stamp(9, 0), 0, []);
      && VarOk(OneInt, v) && Sent(v.flags)
      && EncVar(OneInt, v, false) == [2, 0, 0, 0xF0, 0x1C, 9, 0, 0, 0, 0, 0, 0, 0]
  {
    hide EncMarks;
    TimedMarks();
  }

  lemma Around(body: Bytes)
    requires body == [2, 0, 0, 0xF0, 0x1C, 9, 0, 0, 0, 0, 0, 0, 0]
    ensures [0, 0, 6, 1] + (body + [0]) == [0, 0, 6, 1, 2, 0, 0, 0xF0, 0x1C, 9, 0, 0, 0, 0, 0, 0, 0, 0]
  {
  }

  /** A variable that a timed update has put back to its default is sent, with its time. */
  lemma TimedDefaultBytes()
    ensures
      var s := State(0, [Some(Entry(0, 0x1C, Stamp(9, 0), 0, []))], []);
      && StateOk(OneInt, s)
      && EncState(OneInt, s) == [0, 0, 6, 1, 2, 0, 0, 0xF0, 0x1C, 9, 0, 0, 0, 0, 0, 0, 0, 0]
  {
    hide EncVars, EncStructs, Count, EncVar, VarOk, EncState, Sent;
    var v: Var := Entry(0, 0x1C, Stamp(9, 0), 0, []);
    var s := State(0, [Some(v)], []);
    TimedVar();
    OneVar(OneInt, v, false);
    NoSubs(OneInt);
    Parts(OneInt, s);
    Around(EncVar(OneInt, v, false));
    assert EncHead(s) == [0, 0, 6, 1];
  }

  /** Such a state is one of those that OrderedRoundTrip is about. */
  lemma TimedDefaultOrdered()
    ensures
      var s := State(0, [Some(Entry(0, 0x1C, Stamp(9, 0), 0, []))], []);
      StateOk(OneInt, s) && SdlRoundTrip.Ordered(OneInt, s)
  {
    var none: seq<Option<Var>> := [];
    var slots: seq<Option<Var>> := [Some(Entry(0, 0x1C, Stamp(9, 0), 0, []))];
    assert slots[1..] == none;
    assert SdlRoundTrip.Increasing(slots, 0);
  }

  lemma SmallWords()
    ensures Le32(9) == [9, 0, 0, 0] && Le32(0) == [0, 0, 0, 0] && Le32(2) == [2, 0, 0, 0] && Le16(0x0102) == [2, 1]
  {
  }

  /** A default without a time is not. */
  lemma PlainDefaultBytes()
    ensures
      var s := State(0x0102, [Some(Entry(0, 0x18, Stamp(9, 0), 0, []))], []);
      StateOk(OneInt, s) && EncState(OneInt, s) == [2, 1, 6, 0, 0]
  {
    hide EncVars, EncStructs, Count;
    OneVar(OneInt, Entry(0, 0x18, Stamp(9, 0), 0, []), true);
    NoSubs(OneInt);
  }

  const Inner := Desc([66], 1, [VarDesc(Short, 1)], [])
  const Outer := Desc([67], 2, [VarDesc(Int, 1), VarDesc(Bool, 0)], [SubDesc(Inner, 1)])
  const Inside := State(0, [Some(Entry(0, 0, NoStamp, 1, [HalfElem(0x0102)]))], [])

  lemma InsideBytes()
    ensures StateOk(Inner, Inside) && EncState(Inner, Inside) == [0, 0, 6, 1, 2, 0, 0, 0xF0, 0, 2, 1, 0]
  {
    hide EncVars, EncStructs, Count, EncState, EncVar, VarOk, Sent;
    var v: Var := Entry(0, 0, NoStamp, 1, [HalfElem(0x0102)]);
    ShortVar(v);
    OneVar(Inner, v, false);
    NoSubs(Inner);
    Parts(Inner, Inside);
    assert EncHead(Inside) == [0, 0, 6, 1];
  }

  lemma ShortVar(v: Var)
    requires v == Entry(0, 0, NoStamp, 1, [HalfElem(0x0102)])
    ensures VarOk(Inner, v) && Sent(v.flags) && EncVar(Inner, v, false) == [2, 0, 0, 0xF0, 0, 2, 1]
  {
    hide EncElems, Le16, Le32;
    ShortBytes();
  }

  lemma ShortBytes()
    ensures EncElems([HalfElem(0x0102)], Half) == [2, 1]
    ensures EncElems([TruthElem(true), TruthElem(false)], Truth) == [1, 0]
  {
    var none: seq<Elem> := [];
    assert [HalfElem(0x0102)][1..] == none && [TruthElem(true), TruthElem(false)][1..] == [TruthElem(false)];
    assert [TruthElem(false)][1..] == none;
  }

  lemma TruthBytes(v: Var)
    requires v == Entry(1, 0, NoStamp, 2, [TruthElem(true), TruthElem(false)])
    ensures VarOk(Outer, v) && Sent(v.flags)
    ensures EncVar(Outer, v, true) == [1, 2, 0, 0, 0xF0, 0, 2, 0, 0, 0, 1, 0]
  {
    hide Le32;
    ShortBytes();
    SmallWords();
  }

  /** One of two variables, so that it has its index, with a count of its own; and a struct of one state. */
  lemma NestedBytes()
    ensures
      var s := State(0, [Some(Entry(1, 0, NoStamp, 2, [TruthElem(true), TruthElem(false)]))],
                     [Some(Entry(0, 0x10, NoStamp, 1, [Inside]))]);
      && StateOk(Outer, s)
      && EncState(Outer, s) ==
           [0, 0, 6, 1] + [1, 2, 0, 0, 0xF0, 0, 2, 0, 0, 0, 1, 0]
           + ([1] + [2, 0, 0, 0xF0, 0x10, 1] + [0, 0, 6, 1, 2, 0, 0, 0xF0, 0, 2, 1, 0])
  {
    hide EncVars, EncStructs, Count, Le32, EncState, EncVar, VarOk, SubOk, EncSub, Sent;
    var v: Var := Entry(1, 0, NoStamp, 2, [TruthElem(true), TruthElem(false)]);
    var c: Sub := Entry(0, 0x10, NoStamp, 1, [Inside]);
    var s := State(0, [Some(v)], [Some(c)]);
    TruthBytes(v);
    OneVar(Outer, v, true);
    StructBytes(c);
    OneSub(Outer, c);
    Parts(Outer, s);
    assert EncHead(s) == [0, 0, 6, 1];
    Assoc([0, 0, 6, 1], EncVar(Outer, v, true), EncStructs(Outer, [Some(c)]));
    Assoc([1], [2, 0, 0, 0xF0, 0x10, 1], EncState(Inner, Inside));
  }

  lemma StructBytes(c: Sub)
    requires c == Entry(0, 0x10, NoStamp, 1, [Inside])
    ensures SubOk(Outer, c) && Sent(c.flags) && StateOk(Inner, Inside)
    ensures EncState(Inner, Inside) == [0, 0, 6, 1, 2, 0, 0, 0xF0, 0, 2, 1, 0]
    ensures EncSub(Outer, c, false) == [2, 0, 0, 0xF0, 0x10, 1] + EncState(Inner, Inside)
  {
    hide EncState;
    InsideBytes();
    var none: seq<State> := [];
    assert [Inside][1..] == none;
    assert EncStates(Inner, [Inside]) == EncState(Inner, Inside) + [] == EncState(Inner, Inside);
    var marks: Bytes := [2, 0, 0, 0xF0, 0x10];
    assert EncMarks(0x10, NoStamp) == marks;
    Assoc(marks, [1], EncState(Inner, Inside));
  }

  /** How many bytes a value of a type has. */
  lemma ValueSizes(t: VarType, e: Elem)
    requires Fits(e, ShapeOf(t)) && !t.Key?
    ensures t in {Bool, Octet} ==> |EncElem(e)| == 1
    ensures t in {Short} ==> |EncElem(e)| == 2
    ensures t in {Rgb8} ==> |EncElem(e)| == 3
    ensures t in {Int, Float} ==> |EncElem(e)| == 4
    ensures t in {Time, AgeTimeOfDay} ==> |EncElem(e)| == 8
    ensures t in {Vector3, Point3} ==> |EncElem(e)| == 12
    ensures t in {Quaternion} ==> |EncElem(e)| == 16
    ensures t in {String32} ==> |EncElem(e)| == 32
    ensures !t.Creatable?
  {
  }

  lemma HintRead(hint: Bytes)
    requires hint == [1, 0, 65, 0x10, 8]
    ensures TakeName(hint).rest == [0x10, 8]
  {
    assert Read16(hint, 0) == 1;
  }

  /** Three bytes and a letter after a first byte of 3: a variable skips them for a hint, a struct, which
      looks for a 2, does not. */
  lemma HintBytes(hint: Bytes)
    requires hint == [1, 0, 65, 0x10, 8]
    ensures TakeMarks(true, 0, [3] + ([9] + hint)) == Ok(Lead(0, 0x10, NoStamp), [8])
    ensures TakeMarks(false, 0, [3] + ([9] + hint)) == Ok(Lead(0, 9, NoStamp), hint)
    ensures TakeMarks(false, 0, [2] + ([9] + hint)) == Ok(Lead(0, 0x10, NoStamp), [8])
  {
    hide TakeName;
    HintRead(hint);
    assert ([3] + ([9] + hint))[1..] == ([2] + ([9] + hint))[1..] == [9] + hint;
    assert ([9] + hint)[1..] == hint;
  }

  // ---------- Messages ----------

  /** A body is compressed exactly if that is wanted, it has at least 255 bytes, and it gets shorter;
      the header then tells its length with the type, and the payload's. */
  lemma FrameOf(z: SdlMessage.Zlib, body: Bytes, noCompress: bool)
    ensures
      var frame := SdlMessage.EncPacked(SdlMessage.Pack(z, body, noCompress));
      var tried := !noCompress && |body| > 254;
      var c := z.compress(body);
      if tried && c.Some? && |c.value| < |body| then
        frame == Le32((|body| + 2) % 0x1_0000_0000) + [2]
                 + Le32((|c.value| + 2) % 0x1_0000_0000) + [0, 0x80] + c.value
      else
        frame == [0, 0, 0, 0] + [if tried && c.None? then 1 else 0]
                 + Le32((|body| + 2) % 0x1_0000_0000) + [0, 0x80] + body
  {
    assert Le32(0) == [0, 0, 0, 0] && Le16(0x8000) == [0, 0x80];
  }

  /** An unversioned request finds the newest description of that name, in capitals or small letters, and
      the first of several; a versioned one the first that fits. */
  lemma {:induction false} Finds(descs: seq<Desc>, name: Bytes, version: U16)
    ensures
      var found := SdlMessage.FindByName(descs, name, version);
      if found.None? then forall j | 0 <= j < |descs| :: !Fitting(descs[j], name, version)
      else exists j: nat :: j < |descs| && found.value == descs[j] && IsFound(descs, name, version, j)
  {
    if descs != [] {
      var d, found := descs[0], SdlMessage.FindByName(descs, name, version);
      Finds(descs[1..], name, version);
      assert SdlMessage.SameName(d.name, name) <==>
          (|d.name| == |name| && forall i | 0 <= i < |name| :: SameLetter(d.name[i], name[i]));
      if found.Some? {
        if found.value == d && IsFound(descs, name, version, 0) {
        } else {
          var j: nat :| j < |descs| - 1 && found.value == descs[1..][j] && IsFound(descs[1..], name, version, j);
          assert IsFound(descs, name, version, j + 1);
        }
      }
    }
  }

  predicate SameLetter(a: Byte, b: Byte) {
    a == b || (65 <= a <= 90 && b == a + 32) || (65 <= b <= 90 && a == b + 32)
  }

  predicate Fitting(d: Desc, name: Bytes, version: U16) {
    && |d.name| == |name| && (forall i | 0 <= i < |name| :: SameLetter(d.name[i], name[i]))
    && (version == 0 || d.version == version)
  }

  predicate IsFound(descs: seq<Desc>, name: Bytes, version: U16, j: nat)
    requires j < |descs|
  {
    && Fitting(descs[j], name, version)
    && (version != 0 ==> forall k: nat | k < j :: !Fitting(descs[k], name, version))
    && (version == 0 ==>
          forall k: nat | k < |descs| && k != j && Fitting(descs[k], name, 0) ::
            if k < j then descs[k].version < descs[j].version else descs[k].version <= descs[j].version)
  }

  /** The second and last chunk of a file of 32775 bytes: type, request, status, file, place and length. */
  lemma DownloadHeader()
    ensures FastDownload.Header(0x01020304, 32775, 32768)
            == [0x25, 0, 4, 3, 2, 1, 0, 0, 0, 0, 7, 0x80, 0, 0, 0, 0x80, 0, 0, 7, 0, 0, 0]
  {
    hide Le32;
    DownloadWords();
  }

  lemma FirstDownloadHeader()
    ensures FastDownload.Header(0x01020304, 32775, 0)
            == [0x25, 0, 4, 3, 2, 1, 0, 0, 0, 0, 7, 0x80, 0, 0, 0, 0, 0, 0, 0, 0x80, 0, 0]
  {
    hide Le32;
    DownloadWords();
  }

  lemma DownloadWords()
    ensures Le32(0x01020304) == [4, 3, 2, 1] && Le32(0) == [0, 0, 0, 0] && Le32(32775) == [7, 0x80, 0, 0]
    ensures Le32(32768) == [0, 0x80, 0, 0] && Le32(7) == [7, 0, 0, 0]
  {
  }

  /** The header of a manifest with three records in all and ten bytes of data in this chunk. */
  lemma ManifestHeader()
    ensures ManifestSending.Header(0x01020304, 3, 10)
            == [40, 0, 0, 0, 20, 0, 0, 0, 4, 3, 2, 1, 0, 0, 0, 0, 1, 0, 0, 0, 3, 0, 0, 0, 6, 0, 0, 0]
  {
    hide Le32;
    ManifestWords();
  }

  lemma ManifestWords()
    ensures Le32(40) == [40, 0, 0, 0] && Le32(20) == [20, 0, 0, 0] && Le32(0x01020304) == [4, 3, 2, 1]
    ensures Le32(0) == [0, 0, 0, 0] && Le32(1) == [1, 0, 0, 0] && Le32(3) == [3, 0, 0, 0] && Le32(6) == [6, 0, 0, 0]
  {
  }

  lemma MessageBytes(body: Bytes)
    ensures Writers.Encoding(Writers.Auth(9, body)) == [9, 0] + body
    ensures Writers.Encoding(Writers.JoinReply(0x0102, 0x01020304, 7)) == [2, 1, 4, 3, 2, 1, 7, 0, 0, 0]
  {
    hide Le32;
    DownloadWords();
  }

  // ---------- Nodes ----------

  function Number4(bs: Bytes): U32
    requires |bs| >= 4
  {
    var a: int, b: int, c: int, d: int := bs[0], bs[1], bs[2], bs[3];
    a + 0x100 * b + 0x1_0000 * c + 0x100_0000 * d
  }

  /** A field is read if it is there in full: four bytes, sixteen, or as many as the first four say. */
  lemma FieldIsRead(kind: VaultNodes.Kind, bs: Bytes)
    ensures
      var p := VaultNodes.TakeField(kind, bs);
      match kind
      case Number =>
        if |bs| < 4 then p.Fail? else p == Ok(VaultNodes.Num(Number4(bs)), bs[4..])
      case Id => if |bs| < 16 then p.Fail? else p == Ok(VaultNodes.Buf(bs[..16]), bs[16..])
      case Data =>
        if |bs| < 4 then p.Fail?
        else if |bs| < 4 + Number4(bs) then p.Fail?
        else p == Ok(VaultNodes.Buf(bs[..4 + Number4(bs)]), bs[4 + Number4(bs)..])
  {
  }

  lemma {:induction false} PackAfter(none: seq<bool>, b: seq<bool>)
    requires forall i | 0 <= i < |none| :: !none[i]
    ensures VaultNodes.Pack(none + b) == VaultNodes.Pow2(|none|) * VaultNodes.Pack(b)
  {
    if none == [] {
      assert none + b == b;
    } else {
      assert (none + b)[1..] == none[1..] + b;
      PackAfter(none[1..], b);
      Twice(VaultNodes.Pow2(|none| - 1), VaultNodes.Pack(b));
    }
  }

  lemma Twice(p: nat, q: nat)
    ensures 2 * p * q == 2 * (p * q)
  {
  }

  /** A folder with a number that is not a folder's: type and number are sent, bits 7 and 8 announce them. */
  lemma FolderBytes(bits: VaultNodes.Bits, fields: seq<VaultNodes.Field>)
    requires |fields| == 32 && forall i | 0 <= i < 32 :: bits[i] <==> i in {7, 8, 9}
    requires fields[7] == VaultNodes.Num(0x16) && fields[8] == VaultNodes.Num(5) && fields[9] == VaultNodes.Num(6)
    ensures VaultNodes.EncNode(99, bits, fields)
            == [99, 0, 0, 0, 0x80, 1, 0, 0, 0, 0, 0, 0, 0x16, 0, 0, 0, 5, 0, 0, 0]
  {
    hide Le32, VaultNodes.Pieces, VaultNodes.Included, VaultNodes.Word, Writers.Encoding;
    FolderPieces(bits, fields);
    NodeWords();
  }

  lemma NodeWords()
    ensures Le32(99) == [99, 0, 0, 0] && Le32(0x180) == [0x80, 1, 0, 0] && Le32(0) == [0, 0, 0, 0]
    ensures Le32(0x16) == [0x16, 0, 0, 0] && Le32(5) == [5, 0, 0, 0]
  {
  }

  lemma FolderPieces(bits: VaultNodes.Bits, fields: seq<VaultNodes.Field>)
    requires |fields| == 32 && forall i | 0 <= i < 32 :: bits[i] <==> i in {7, 8, 9}
    requires fields[7] == VaultNodes.Num(0x16) && fields[8] == VaultNodes.Num(5) && fields[9] == VaultNodes.Num(6)
    ensures
      var inc := VaultNodes.Included(bits, fields);
      VaultNodes.Word(inc) == 0x180 && Flat(VaultNodes.Pieces(inc, fields)) == Le32(0x16) + Le32(5)
  {
    hide Le32, VaultNodes.Pack, VaultNodes.Mask;
    var inc := VaultNodes.Included(bits, fields);
    FolderFields();
    assert VaultNodes.TypeOf(fields) == 0x16;
    PackTwo(inc);
    var ps := VaultNodes.Pieces(inc, fields);
    assert ps == ps[..7] + ([ps[7], ps[8]] + ps[9..]);
    VaultNodes.AllEmpty(ps[..7]);
    VaultNodes.AllEmpty(ps[9..]);
    FlatAppend(ps[..7], [ps[7], ps[8]] + ps[9..]);
    FlatAppend([ps[7], ps[8]], ps[9..]);
    FlatTwo(ps[7], ps[8]);
  }

  lemma FolderFields()
    ensures 7 in VaultNodes.Mask(0x16) && 8 in VaultNodes.Mask(0x16) && 9 !in VaultNodes.Mask(0x16)
  {
  }

  lemma FlatTwo(a: Bytes, b: Bytes)
    ensures Flat([a, b]) == a + b
  {
    var none: seq<Bytes> := [];
    assert [a, b][1..] == [b] && [b][1..] == none;
    assert Flat([b]) == b + [] == b;
  }

  lemma PackTwo(b: VaultNodes.Bits)
    requires forall i | 0 <= i < 32 :: b[i] <==> i in {7, 8}
    ensures VaultNodes.Pack(b) == 0x180
  {
    hide VaultNodes.Pack, VaultNodes.Pow2;
    assert b == b[..7] + ([true, true] + b[9..]);
    PackAfter(b[..7], [true, true] + b[9..]);
    PackAfter(b[9..], []);
    assert b[9..] + [] == b[9..];
    PackBoth(b[9..]);
    SevenBits();
  }

  lemma SevenBits()
    ensures VaultNodes.Pow2(7) == 0x80 && VaultNodes.Pack([]) == 0
  {
    assert VaultNodes.Pow2(3) == 8 && VaultNodes.Pow2(5) == 32;
  }

  lemma PackBoth(b: seq<bool>)
    ensures VaultNodes.Pack([true, true] + b) == 3 + 4 * VaultNodes.Pack(b)
  {
    assert ([true, true] + b)[1..] == [true] + b && ([true] + b)[1..] == b;
  }
}
