/** The bounds check of vault nodes (VaultNode.cc), which counts in 32 bits, and how messages from
    clients call it (AuthMessage.cc): with a base four bytes after the one the node is read from, so
    that the second bit field, which nobody uses, is taken for the first, and the fields for one word
    further on. */
module VaultCheck {
  import opened Wire
  import opened VaultNodes

  const WIDTH := 0x1_0000_0000

  function Add32(a: U32, b: U32): U32 { (a + b) % WIDTH }

  /** The check may also read outside the buffer it checks. */
  datatype Verdict = Accept | Reject | Stray

  /** The fields from the i-th on, at an offset. */
  function Scan(bits: Bits, i: nat, buf: Bytes, offset: U32): Verdict
    requires i <= FIELDS && |buf| < WIDTH
    decreases FIELDS - i
  {
    if i == FIELDS then if offset > |buf| then Reject else Accept
    else if !bits[i] then Scan(bits, i + 1, buf, offset)
    else
      match KindOf(i)
      case Number => Scan(bits, i + 1, buf, Add32(offset, 4))
      case Id => Scan(bits, i + 1, buf, Add32(offset, 16))
      case Data =>
        if Add32(offset, 4) > |buf| then Reject
        else if offset + 4 > |buf| then Stray
        else Scan(bits, i + 1, buf, Add32(offset, Add32(4, Read32(buf, offset))))
  }

  function ScanOf(buf: Bytes): Verdict
    requires 12 <= |buf| < WIDTH
  {
    Scan(FromWord(Read32(buf, 4)), 0, buf, 12)
  }

  method CheckLenByBitfields(buf: Bytes) returns (v: Verdict)
    requires 12 <= |buf| < WIDTH
    ensures v == ScanOf(buf)
  {
    hide Read32, FromWord;
    var bits1 := FromWord(Read32(buf, 4));
    var offset: U32 := 12;
    for i := 0 to FIELDS
      invariant Scan(bits1, i, buf, offset) == ScanOf(buf)
    {
      if bits1[i] {
        match KindOf(i)
        case Number => offset := Add32(offset, 4);
        case Id => offset := Add32(offset, 16);
        case Data =>
          if Add32(offset, 4) > |buf| {
            return Reject;
          }
          if offset + 4 > |buf| {
            return Stray;
          }
          offset := Add32(offset, Add32(4, Read32(buf, offset)));
      }
    }
    v := if offset > |buf| then Reject else Accept;
  }

  /** No offset reaches the width of a counter, nor does one that more is read at. */
  predicate Below(bits: Bits, i: nat, buf: Bytes, offset: nat)
    requires i <= FIELDS
    decreases FIELDS - i
  {
    if i == FIELDS then offset < WIDTH
    else if !bits[i] then Below(bits, i + 1, buf, offset)
    else
      match KindOf(i)
      case Number => offset + 4 < WIDTH && Below(bits, i + 1, buf, offset + 4)
      case Id => offset + 16 < WIDTH && Below(bits, i + 1, buf, offset + 16)
      case Data =>
        offset + 4 < WIDTH
        && (offset + 4 <= |buf| ==>
              var next := offset + 4 + Read32(buf, offset);
              next < WIDTH && Below(bits, i + 1, buf, next))
  }

  /** How far one field reaches. */
  function Reach(kind: Kind, buf: Bytes, offset: nat): nat {
    match kind
    case Number => offset + 4
    case Id => offset + 16
    case Data => if offset + 4 <= |buf| then offset + 4 + Read32(buf, offset) else offset + 4
  }

  lemma FieldOk(bits: Bits, i: nat, buf: Bytes, offset: nat)
    requires i < FIELDS && offset <= |buf|
    ensures !bits[i] ==> TakeFields(bits, i, buf[offset..]).Ok? == TakeFields(bits, i + 1, buf[offset..]).Ok?
    ensures
      bits[i] ==>
        var next := Reach(KindOf(i), buf, offset);
        TakeFields(bits, i, buf[offset..]).Ok? <==> next <= |buf| && TakeFields(bits, i + 1, buf[next..]).Ok?
  {
    hide Read32, KindOf;
    var next := Reach(KindOf(i), buf, offset);
    if bits[i] && offset + 4 <= |buf| {
      ReadFrom(buf, offset);
    }
    if next <= |buf| {
      assert buf[offset..][next - offset..] == buf[next..];
    }
  }

  lemma ScanStep(bits: Bits, i: nat, buf: Bytes, offset: nat)
    requires i < FIELDS && |buf| < WIDTH && offset < WIDTH && (bits[i] ==> Reach(KindOf(i), buf, offset) < WIDTH)
    ensures
      Scan(bits, i, buf, offset) ==
        if !bits[i] then Scan(bits, i + 1, buf, offset)
        else if KindOf(i) == Data && offset + 4 > |buf| then Reject
        else Scan(bits, i + 1, buf, Reach(KindOf(i), buf, offset))
  {
    hide KindOf, Read32;
  }

  /** Then the check is right. */
  lemma {:induction false} ScanRight(bits: Bits, i: nat, buf: Bytes, offset: nat)
    requires i <= FIELDS && |buf| < WIDTH && offset < WIDTH && Below(bits, i, buf, offset)
    ensures
      Scan(bits, i, buf, offset)
      == if offset <= |buf| && TakeFields(bits, i, buf[offset..]).Ok? then Accept else Reject
    decreases FIELDS - i
  {
    hide Read32, KindOf, TakeFields, Scan;
    if i == FIELDS {
      NoFields(bits, buf, offset);
    } else {
      ScanStep(bits, i, buf, offset);
      if offset <= |buf| {
        FieldOk(bits, i, buf, offset);
      }
      if !bits[i] {
        ScanRight(bits, i + 1, buf, offset);
      } else if KindOf(i) != Data || offset + 4 <= |buf| {
        ScanRight(bits, i + 1, buf, Reach(KindOf(i), buf, offset));
      }
    }
  }

  lemma NoFields(bits: Bits, buf: Bytes, offset: nat)
    requires offset < WIDTH && |buf| < WIDTH
    ensures offset <= |buf| ==> TakeFields(bits, FIELDS, buf[offset..]).Ok?
    ensures Scan(bits, FIELDS, buf, offset) == if offset > |buf| then Reject else Accept
  {
  }

  predicate NoData(bits: Bits) { forall i | 0 <= i < FIELDS && bits[i] :: KindOf(i) != Data }

  lemma {:induction false} NoDataBelow(bits: Bits, i: nat, buf: Bytes, offset: nat)
    requires NoData(bits) && i <= FIELDS && offset <= 16 + 16 * i
    ensures Below(bits, i, buf, offset)
    decreases FIELDS - i
  {
    hide KindOf;
    if i < FIELDS {
      var size := if !bits[i] then 0 else if KindOf(i) == Number then 4 else 16;
      NoDataBelow(bits, i + 1, buf, offset + size);
    }
  }

  /** No byte is large enough for a length that could lead there. */
  predicate Mild(b: Bytes) { forall i | 0 <= i < |b| :: b[i] <= 0x10 }

  lemma MildRead(b: Bytes, at: nat)
    requires Mild(b) && at + 4 <= |b|
    ensures Read32(b, at) <= 0x1010_1010
  {
  }

  lemma {:induction false} MildBelow(bits: Bits, i: nat, buf: Bytes, offset: nat)
    requires i <= FIELDS && |buf| < 0x1_0000 && 12 <= offset <= 0x2000_0000 + 16 * i
    requires |buf| >= 12 && Mild(buf[12..])
    ensures Below(bits, i, buf, offset)
    decreases FIELDS - i
  {
    hide KindOf, Read32;
    if i < FIELDS {
      var size := if !bits[i] then 0 else if KindOf(i) == Number then 4 else if KindOf(i) == Id then 16 else 0;
      MildBelow(bits, i + 1, buf, offset + size);
      if bits[i] && KindOf(i) == Data && offset + 4 <= |buf| {
        MildRead(buf[12..], offset - 12);
        ReadFrom(buf, offset);
        ReadFrom(buf[12..], offset - 12);
        assert buf[12..][offset - 12..] == buf[offset..];
        MildBelow(bits, i + 1, buf, offset + 4 + Read32(buf, offset));
      }
    }
  }

  // ---------- Where it goes wrong ----------

  /** A length that leads back to itself, and nothing behind it. */
  predicate Trap(buf: Bytes, at: nat) {
    && at + 4 + 16 * 33 <= |buf| < WIDTH && Read32(buf, at) == 0xFFFF_FFFC
    && forall k | at + 4 <= k < |buf| :: buf[k] == 0
  }

  /** Any offset the check may have after it has been caught. */
  predicate Caught(at: nat, offset: nat, i: nat) { offset == at || at + 4 <= offset <= at + 4 + 16 * i }

  lemma {:induction false} StaysCaught(bits: Bits, i: nat, buf: Bytes, at: nat, offset: nat)
    requires Trap(buf, at) && i <= FIELDS && Caught(at, offset, i)
    ensures Scan(bits, i, buf, offset) == Accept
    decreases FIELDS - i
  {
    hide KindOf;
    if i < FIELDS {
      var size :=
        if !bits[i] then 0 else if KindOf(i) == Number then 4 else if KindOf(i) == Id then 16
        else if offset == at then 0 else 4;
      if bits[i] && KindOf(i) == Data && offset != at {
        assert Read32(buf, offset) == 0;
      }
      StaysCaught(bits, i + 1, buf, at, offset + size);
    }
  }

  /** With a string or blob among the fields there are buffers that end in the first one's trap. */
  lemma {:induction false} SetTrap(bits: Bits, i: nat, offset: nat) returns (at: nat)
    requires i <= FIELDS && offset <= 12 + 16 * i && exists j :: i <= j < FIELDS && bits[j] && KindOf(j) == Data
    ensures offset <= at <= 12 + 16 * FIELDS
    ensures forall buf | Trap(buf, at) ::
              Scan(bits, i, buf, offset) == Accept && TakeFields(bits, i, buf[offset..]).Fail?
    decreases FIELDS - i
  {
    hide KindOf, Read32, Scan, TakeFields;
    if bits[i] && KindOf(i) == Data {
      at := offset;
      forall buf | Trap(buf, at) ensures Scan(bits, i, buf, at) == Accept && TakeFields(bits, i, buf[at..]).Fail? {
        FallsIn(bits, i, buf, at);
      }
    } else {
      var size := if !bits[i] then 0 else if KindOf(i) == Number then 4 else 16;
      at := SetTrap(bits, i + 1, offset + size);
      forall buf | Trap(buf, at)
        ensures Scan(bits, i, buf, offset) == Accept && TakeFields(bits, i, buf[offset..]).Fail?
      {
        ScanStep(bits, i, buf, offset);
        FieldOk(bits, i, buf, offset);
      }
    }
  }

  lemma FallsIn(bits: Bits, i: nat, buf: Bytes, at: nat)
    requires Trap(buf, at) && i < FIELDS && bits[i] && KindOf(i) == Data
    ensures Scan(bits, i, buf, at) == Accept && TakeFields(bits, i, buf[at..]).Fail?
  {
    hide KindOf, Read32, TakeFields;
    FieldOk(bits, i, buf, at);
    StaysCaught(bits, i + 1, buf, at, at);
  }

  /** What lies before and in a trap. */
  function TrapBytes(n: nat): (b: Bytes)
    ensures |b| == n + 4 + 16 * 33
  {
    Zeros(n) + ([0xFC, 0xFF, 0xFF, 0xFF] + Zeros(16 * 33))
  }

  lemma TrapSet(head: Bytes, n: nat)
    requires |head| + n < 0x1000
    ensures Trap(head + TrapBytes(n), |head| + n)
  {
    var buf, at := head + TrapBytes(n), |head| + n;
    assert buf[at] == 0xFC && buf[at + 1] == buf[at + 2] == buf[at + 3] == 0xFF;
  }

  /** For a given bit field the check is right about every buffer exactly if there is no string or blob
      among the fields. */
  lemma ChecksExactly(first: U32)
    ensures (forall buf: Bytes | 12 <= |buf| < WIDTH && Read32(buf, 4) == first ::
               ScanOf(buf) == if LenOk(buf) then Accept else Reject)
            <==> NoData(FromWord(first))
  {
    hide FromWord, Read32, NoData, KindOf;
    var bits := FromWord(first);
    if NoData(bits) {
      forall buf: Bytes | 12 <= |buf| < WIDTH && Read32(buf, 4) == first
        ensures ScanOf(buf) == if LenOk(buf) then Accept else Reject
      {
        NoDataBelow(bits, 0, buf, 12);
        ScanRight(bits, 0, buf, 12);
      }
    } else {
      SomeData(bits);
      var at := SetTrap(bits, 0, 12);
      var head := Le32(0) + (Le32(first) + Le32(0));
      var buf := head + TrapBytes(at - 12);
      TrapSet(head, at - 12);
      Take32Le32(first, Le32(0) + TrapBytes(at - 12));
      assert buf[4..] == Le32(first) + (Le32(0) + TrapBytes(at - 12));
      ReadFrom(buf, 4);
      assert Trap(buf, at);
      assert ScanOf(buf) == Accept && !LenOk(buf);
    }
  }

  lemma SomeData(bits: Bits)
    requires !NoData(bits)
    ensures exists j :: 0 <= j < FIELDS && bits[j] && KindOf(j) == Data
  {
  }

  /** A buffer in which every field lies is always accepted. */
  lemma {:induction false} ScanAccepts(bits: Bits, i: nat, buf: Bytes, offset: nat)
    requires i <= FIELDS && offset <= |buf| < WIDTH && TakeFields(bits, i, buf[offset..]).Ok?
    ensures Scan(bits, i, buf, offset) == Accept
    decreases FIELDS - i
  {
    hide KindOf, Read32, TakeFields, Scan;
    if i == FIELDS {
      NoFields(bits, buf, offset);
    } else {
      FieldOk(bits, i, buf, offset);
      ScanStep(bits, i, buf, offset);
      ScanAccepts(bits, i + 1, buf, if bits[i] then Reach(KindOf(i), buf, offset) else offset);
    }
  }

  /** Whatever its fields, what the server sends of a node is accepted. */
  lemma SentIsAccepted(length: U32, bits: Bits, fields: seq<Field>, rest: Bytes)
    requires AllOk(bits, fields) && |EncNode(length, bits, fields) + rest| < WIDTH
    ensures |EncNode(length, bits, fields) + rest| >= 12 && ScanOf(EncNode(length, bits, fields) + rest) == Accept
  {
    hide EncNode, Scan, TakeFields, Read32, FromWord, OfType;
    var buf := EncNode(length, bits, fields) + rest;
    NodeRoundTrip(length, bits, fields, rest);
    ScanAccepts(FromWord(Read32(buf, 4)), 0, buf, 12);
  }

  // ---------- The check as it is called ----------

  /** check_useable of a message with a node; buf begins with the node's length. */
  function Useable(buf: Bytes): Verdict
    requires |buf| < WIDTH
  {
    if |buf| < 4 || Read32(buf, 0) + 4 < |buf| then Reject
    else if |buf| < 16 then Stray
    else ScanOf(buf[4..])
  }

  /** With less than 16 bytes the bit fields are read that are not there. */
  method CheckUseable(buf: Bytes) returns (v: Verdict)
    requires |buf| < WIDTH
    ensures v == Useable(buf)
    ensures v == Accept <==> |buf| >= 16 && Read32(buf, 0) + 4 >= |buf| && Accepted(buf)
  {
    if |buf| < 4 || Read32(buf, 0) + 4 < |buf| {
      return Reject;
    }
    if |buf| < 16 {
      return Stray;
    }
    v := CheckLenByBitfields(buf[4..]);
  }

  predicate Accepted(buf: Bytes)
    requires |buf| < WIDTH
  {
    |buf| >= 16 && ScanOf(buf[4..]) == Accept
  }

  /** What the check looks at, if it does not overflow: the fields of the second word, four bytes on. */
  lemma AcceptedMeans(buf: Bytes)
    requires 16 <= |buf| < WIDTH && Below(FromWord(Read32(buf, 8)), 0, buf[4..], 12)
    ensures Accepted(buf) <==> TakeFields(FromWord(Read32(buf, 8)), 0, buf[16..]).Ok?
  {
    hide Read32;
    ReadFrom(buf, 8);
    ReadFrom(buf[4..], 4);
    assert buf[4..][4..] == buf[8..] && buf[4..][12..] == buf[16..];
    ScanRight(FromWord(Read32(buf, 8)), 0, buf[4..], 12);
  }

  // ---------- What a bit field asks for ----------

  /** The fixed stretches between fields that bring their own length. */
  function Runs(bits: Bits, i: nat): (r: seq<nat>)
    requires i <= FIELDS
    ensures |r| > 0
    decreases FIELDS - i
  {
    if i == FIELDS then [0]
    else
      var r := Runs(bits, i + 1);
      if !bits[i] then r
      else
        match KindOf(i)
        case Number => r[0 := r[0] + 4]
        case Id => r[0 := r[0] + 16]
        case Data => [0] + r
  }

  /** A buffer holds the stretches, with data in between. */
  predicate Holds(r: seq<nat>, b: Bytes)
    requires |r| > 0
    decreases |r|
  {
    && r[0] <= |b|
    && (|r| > 1 ==>
          && r[0] + 4 <= |b|
          && r[0] + 4 + Read32(b, r[0]) <= |b|
          && Holds(r[1..], b[r[0] + 4 + Read32(b, r[0])..]))
  }

  lemma HoldsStep(r: seq<nat>, b: Bytes)
    requires |r| > 0
    ensures |r| == 1 ==> (Holds(r, b) <==> r[0] <= |b|)
    ensures
      |r| > 1 ==>
        (Holds(r, b) <==>
         && r[0] + 4 <= |b|
         && r[0] + 4 + Read32(b, r[0]) <= |b|
         && Holds(r[1..], b[r[0] + 4 + Read32(b, r[0])..]))
  {
    hide Read32;
  }

  /** Whether fields can be read depends on nothing else. */
  lemma {:induction false} TakeFieldsHolds(bits: Bits, i: nat, b: Bytes)
    requires i <= FIELDS
    ensures TakeFields(bits, i, b).Ok? <==> Holds(Runs(bits, i), b)
    decreases FIELDS - i
  {
    hide Read32, KindOf, TakeFields;
    assert b[0..] == b;
    if i == FIELDS {
      NoMore(bits, b);
    } else {
      var r, next := Runs(bits, i + 1), Reach(KindOf(i), b, 0);
      FieldOk(bits, i, b, 0);
      if !bits[i] {
        TakeFieldsHolds(bits, i + 1, b);
      } else {
        if KindOf(i) == Data {
          assert ([0] + r)[1..] == r;
        } else {
          HoldsAfter(r, next, b);
        }
        if next <= |b| {
          TakeFieldsHolds(bits, i + 1, b[next..]);
        }
      }
    }
  }

  lemma NoMore(bits: Bits, b: Bytes)
    ensures TakeFields(bits, FIELDS, b).Ok?
  {
  }

  /** A longer first stretch. */
  lemma HoldsAfter(r: seq<nat>, k: nat, b: Bytes)
    requires |r| > 0
    ensures Holds(r[0 := r[0] + k], b) <==> k <= |b| && Holds(r, b[k..])
  {
    hide Read32, Holds;
    var longer := r[0 := r[0] + k];
    HoldsStep(longer, b);
    if k <= |b| {
      HoldsStep(r, b[k..]);
    }
    if k <= |b| && r[0] + k <= |b| && |r| > 1 {
      assert longer[1..] == r[1..];
      if r[0] + k + 4 <= |b| {
        ReadFrom(b, r[0] + k);
        ReadFrom(b[k..], r[0]);
        assert b[k..][r[0]..] == b[r[0] + k..];
        var n := Read32(b, r[0] + k);
        if r[0] + k + 4 + n <= |b| {
          assert b[k..][r[0] + 4 + n..] == b[r[0] + k + 4 + n..];
        }
      }
    }
  }

  // ---------- Telling two of them apart ----------

  predicate Words4(r: seq<nat>) { forall i | 0 <= i < |r| :: r[i] % 4 == 0 }

  lemma {:induction false} RunsWords(bits: Bits, i: nat)
    requires i <= FIELDS
    ensures Words4(Runs(bits, i)) && Need(Runs(bits, i)) <= 16 * (FIELDS - i)
    decreases FIELDS - i
  {
    hide KindOf;
    if i < FIELDS {
      RunsWords(bits, i + 1);
      assert ([0] + Runs(bits, i + 1))[1..] == Runs(bits, i + 1);
    }
  }

  function Zeros(n: nat): (b: Bytes)
    ensures |b| == n
  {
    seq(n, _ => 0)
  }

  /** How many zeros hold the stretches. */
  function Need(r: seq<nat>): nat
    requires |r| > 0
  {
    if |r| == 1 then r[0] else r[0] + 4 + Need(r[1..])
  }

  lemma NeedStep(r: seq<nat>)
    requires |r| > 0
    ensures r[0] <= Need(r) && (|r| > 1 ==> Need(r) == r[0] + 4 + Need(r[1..]))
  {
  }

  lemma {:induction false} ZerosHold(r: seq<nat>, n: nat)
    requires |r| > 0
    ensures Holds(r, Zeros(n)) <==> n >= Need(r)
    decreases |r|
  {
    if |r| > 1 && r[0] + 4 <= n {
      assert Read32(Zeros(n), r[0]) == 0;
      assert Zeros(n)[r[0] + 4..] == Zeros(n - r[0] - 4);
      ZerosHold(r[1..], n - r[0] - 4);
    }
  }

  /** A length too long for the buffer at a position in otherwise empty memory. */
  function Blocked(at: nat, n: nat): (b: Bytes)
    ensures |b| == at + 4 + n
  {
    Zeros(at) + ([0, 0, 0, 0x10] + Zeros(n))
  }

  lemma BlockedReads(at: nat, n: nat)
    ensures Read32(Blocked(at, n), at) == 0x1000_0000 && Mild(Blocked(at, n))
    ensures forall k | at + 4 <= k <= at + 4 + n :: Blocked(at, n)[k..] == Zeros(at + 4 + n - k)
  {
  }

  lemma BlockedHolds(s: seq<nat>, at: nat, n: nat)
    requires |s| > 0 && at + 4 <= s[0] && Need(s) <= n < 0x1000_0000
    ensures Holds(s, Blocked(at, n))
  {
    hide Read32, Blocked, Zeros, Holds, Need;
    var b := Blocked(at, n);
    BlockedReads(at, n);
    HoldsStep(s, b);
    NeedStep(s);
    if |s| > 1 {
      var left := at + 4 + n - s[0];
      ReadFrom(b, s[0]);
      ZerosRead(left);
      assert b[s[0] + 4..] == Zeros(left - 4);
      ZerosHold(s[1..], left - 4);
    }
  }

  lemma ZerosRead(n: nat)
    requires n >= 4
    ensures Read32(Zeros(n), 0) == 0
  {
  }

  /** An empty first piece of data. */
  lemma HoldsPast(r: seq<nat>, t: Bytes)
    requires |r| > 1
    ensures Holds(r, Zeros(r[0]) + (Zeros(4) + t)) <==> Holds(r[1..], t)
  {
    hide Read32;
    var b := Zeros(r[0]) + (Zeros(4) + t);
    assert b[r[0]..] == Zeros(4) + t && b[r[0] + 4..] == t;
    ReadFrom(b, r[0]);
    ReadPrefix(Zeros(4), t);
    ZerosRead(4);
  }

  /** The first stretch of one is shorter. */
  lemma TellShorter(r: seq<nat>, s: seq<nat>) returns (b: Bytes)
    requires |r| > 0 && |s| > 0 && Words4(r) && Words4(s) && r[0] < s[0] && Need(s) < 0x1000_0000
    ensures Holds(r, b) != Holds(s, b) && |b| <= Need(r) + Need(s) + 4 && Mild(b)
  {
    hide Read32;
    if |r| == 1 {
      b := Zeros(r[0]);
    } else {
      var n := Need(s);
      b := Blocked(r[0], n);
      BlockedReads(r[0], n);
      BlockedHolds(s, r[0], n);
    }
  }

  /** Different stretches are held by different buffers. */
  lemma {:induction false} TellApart(r: seq<nat>, s: seq<nat>) returns (b: Bytes)
    requires |r| > 0 && |s| > 0 && r != s && Words4(r) && Words4(s)
    requires Need(r) < 0x1000_0000 && Need(s) < 0x1000_0000
    ensures Holds(r, b) != Holds(s, b) && |b| <= Need(r) + Need(s) + 4 && Mild(b)
    decreases |r|
  {
    hide Read32;
    if r[0] < s[0] {
      b := TellShorter(r, s);
    } else if s[0] < r[0] {
      b := TellShorter(s, r);
    } else if |r| == 1 || |s| == 1 {
      b := Zeros(r[0]);
    } else {
      assert r == [r[0]] + r[1..] && s == [s[0]] + s[1..];
      var t := TellApart(r[1..], s[1..]);
      HoldsPast(r, t);
      HoldsPast(s, t);
      b := Zeros(r[0]) + (Zeros(4) + t);
    }
  }

  // ---------- When the check is right ----------

  /** The fields of the second word, with four bytes before them, ask for the same as those of the
      first. */
  predicate Alike(first: U32, second: U32) {
    var r, s := Runs(FromWord(first), 0), Runs(FromWord(second), 0);
    r == s[0 := s[0] + 4]
  }

  /** A message as it is read from a connection: the node's length is that of the rest. */
  ghost predicate WithWords(buf: Bytes, first: U32, second: U32) {
    12 <= |buf| < WIDTH && Read32(buf, 0) + 4 == |buf| && Read32(buf, 4) == first && Read32(buf, 8) == second
  }

  lemma BothMean(buf: Bytes, first: U32, second: U32)
    requires WithWords(buf, first, second)
    requires |buf| >= 16 ==> Below(FromWord(second), 0, buf[4..], 12)
    ensures
      var r, s := Runs(FromWord(first), 0), Runs(FromWord(second), 0);
      && (LenOk(buf) <==> Holds(r, buf[12..]))
      && (Accepted(buf) <==> Holds(s[0 := s[0] + 4], buf[12..]))
  {
    hide Read32, Runs, FromWord, TakeFields, Holds;
    var s := Runs(FromWord(second), 0);
    TakeFieldsHolds(FromWord(first), 0, buf[12..]);
    HoldsAfter(s, 4, buf[12..]);
    if |buf| >= 16 {
      AcceptedMeans(buf);
      TakeFieldsHolds(FromWord(second), 0, buf[16..]);
      assert buf[12..][4..] == buf[16..];
    }
  }

  /** For given bit fields the check is right about every message exactly if they ask for the same,
      four bytes apart, and there is no string or blob to go wrong with. */
  lemma CheckedFourBytesOn(first: U32, second: U32)
    ensures (forall buf | WithWords(buf, first, second) :: Accepted(buf) <==> LenOk(buf))
            <==> Alike(first, second) && NoData(FromWord(second))
  {
    hide Runs, FromWord, Accepted, LenOk, Holds, Need, NoData, Below, Mild;
    var bits, r, s := FromWord(second), Runs(FromWord(first), 0), Runs(FromWord(second), 0);
    if !Alike(first, second) {
      var later := s[0 := s[0] + 4];
      RunsWords(FromWord(first), 0);
      RunsWords(bits, 0);
      NeedAfter(s, 4);
      var b := TellApart(r, later);
      var buf := Message(first, second, b);
      MildMessage(bits, buf);
      BothMean(buf, first, second);
      assert Accepted(buf) != LenOk(buf);
    } else if NoData(bits) {
      forall buf | WithWords(buf, first, second) ensures Accepted(buf) <==> LenOk(buf) {
        NoDataMessage(bits, buf);
        BothMean(buf, first, second);
      }
    } else {
      var buf := TrappedMessage(first, second);
      assert Accepted(buf) != LenOk(buf);
    }
  }

  lemma MildMessage(bits: Bits, buf: Bytes)
    requires 12 <= |buf| < 0x1_0000 && Mild(buf[12..])
    ensures |buf| >= 16 ==> Below(bits, 0, buf[4..], 12)
  {
    if |buf| >= 16 {
      assert buf[4..][12..] == buf[12..][4..];
      MildBelow(bits, 0, buf[4..], 12);
    }
  }

  lemma NoDataMessage(bits: Bits, buf: Bytes)
    requires NoData(bits) && |buf| >= 12
    ensures |buf| >= 16 ==> Below(bits, 0, buf[4..], 12)
  {
    NoDataBelow(bits, 0, if |buf| >= 16 then buf[4..] else buf, 12);
  }

  /** What the check accepts, caught in a trap, does not hold its fields. */
  lemma TrappedMessage(first: U32, second: U32) returns (buf: Bytes)
    requires Alike(first, second) && !NoData(FromWord(second))
    ensures WithWords(buf, first, second) && Accepted(buf) && !LenOk(buf)
  {
    hide Runs, FromWord, Holds, NoData, Read32, TakeFields, Scan, Trap, TrapBytes;
    var bits, s := FromWord(second), Runs(FromWord(second), 0);
    SomeData(bits);
    var at := SetTrap(bits, 0, 12);
    var b := TrapBytes(at - 8);
    buf := Message(first, second, b);
    var base, head := buf[4..], buf[4..12];
    assert base == head + b by {
      assert buf[12..] == b;
    }
    TrapSet(head, at - 8);
    ReadFrom(buf, 8);
    ReadFrom(base, 4);
    assert base[4..] == buf[8..] && base[12..] == buf[16..] == b[4..];
    assert TakeFields(bits, 0, base[12..]).Fail?;
    TakeFieldsHolds(FromWord(first), 0, buf[12..]);
    TakeFieldsHolds(bits, 0, b[4..]);
    HoldsAfter(s, 4, b);
  }

  lemma NeedAfter(s: seq<nat>, k: nat)
    requires |s| > 0
    ensures Need(s[0 := s[0] + k]) == Need(s) + k
    ensures Words4(s) && k % 4 == 0 ==> Words4(s[0 := s[0] + k])
  {
    assert s[0 := s[0] + k][1..] == s[1..];
  }

  /** A message with the given words and fields. */
  function Message(first: U32, second: U32, b: Bytes): (buf: Bytes)
    requires |b| < 0x1000
    ensures WithWords(buf, first, second) && buf[12..] == b
  {
    hide Read32, Le32;
    var t := Le32(second) + b;
    var u := Le32(first) + t;
    var buf := Le32(8 + |b|) + u;
    assert WithWords(buf, first, second) && buf[12..] == b by {
      Take32Le32(8 + |b|, u);
      Take32Le32(first, t);
      Take32Le32(second, b);
      assert buf[4..] == u && buf[8..] == t && buf[12..] == b;
      ReadFrom(buf, 4);
      ReadFrom(buf, 8);
    }
    buf
  }

  /** With an empty second word, as everyone sends it, every message of 16 bytes is accepted; that is
      right for all of them only if the first word has at most a single number. */
  lemma NothingIsChecked(first: U32)
    ensures forall buf | WithWords(buf, first, 0) && |buf| >= 16 :: Accepted(buf)
    ensures
      (forall buf | WithWords(buf, first, 0) && |buf| >= 16 :: LenOk(buf)) <==> Runs(FromWord(first), 0) in [[0], [4]]
  {
    hide FromWord, Accepted, LenOk, Holds, Runs, Words4;
    NoRuns();
    var r := Runs(FromWord(first), 0);
    assert [0][0 := 0 + 4] == [4];
    forall buf | WithWords(buf, first, 0) && |buf| >= 16 ensures Accepted(buf) && (r in [[0], [4]] ==> LenOk(buf)) {
      NoDataMessage(FromWord(0), buf);
      BothMean(buf, first, 0);
      LongEnough(buf[12..]);
    }
    if r !in [[0], [4]] {
      RunsWords(FromWord(first), 0);
      var b := NotHeld(r);
      NoDataMessage(FromWord(0), Message(first, 0, b));
      BothMean(Message(first, 0, b), first, 0);
    }
  }

  lemma LongEnough(b: Bytes)
    requires |b| >= 4
    ensures Holds([0], b) && Holds([4], b)
  {
  }

  lemma NotHeld(r: seq<nat>) returns (b: Bytes)
    requires |r| > 0 && Words4(r) && r !in [[0], [4]]
    ensures |b| == 4 && !Holds(r, b)
  {
    hide Read32;
    if r[0] == 0 {
      assert |r| == 1 ==> r == [0];
      b := Blocked(0, 0);
      BlockedReads(0, 0);
    } else {
      assert |r| == 1 ==> r == [r[0]];
      b := Zeros(4);
    }
  }

  lemma NoRuns()
    ensures Runs(FromWord(0), 0) == [0] && NoData(FromWord(0))
  {
    forall i | 0 <= i < FIELDS ensures !FromWord(0)[i] {
      UnpackZero(FIELDS, i);
    }
    RunsOfNone(FromWord(0), 0);
  }

  lemma {:induction false} RunsOfNone(bits: Bits, i: nat)
    requires i <= FIELDS && forall j | i <= j < FIELDS :: !bits[j]
    ensures Runs(bits, i) == [0]
    decreases FIELDS - i
  {
    if i < FIELDS {
      RunsOfNone(bits, i + 1);
    }
  }

  /** A message that announces an identifier and has room for a quarter of it. */
  lemma AcceptedThoughTooShort(buf: Bytes)
    requires buf == [12, 0, 0, 0, 0x10, 0, 0, 0, 0, 0, 0, 0, 0, 0, 0, 0]
    ensures Accepted(buf) && !LenOk(buf)
  {
    hide TakeFields, Unpack;
    assert WithWords(buf, 0x10, 0);
    NothingIsChecked(0x10);
    FifthBit();
    var bits, b := FromWord(0x10), buf[12..];
    IdTooShort(bits, b);
  }

  lemma FifthBit()
    ensures var bits := FromWord(0x10); !bits[0] && !bits[1] && !bits[2] && !bits[3] && bits[4]
  {
    hide Unpack;
    UnpackStep(16, 32);
    UnpackStep(8, 31);
    UnpackStep(4, 30);
    UnpackStep(2, 29);
    UnpackStep(1, 28);
  }

  lemma UnpackStep(n: nat, k: nat)
    requires k > 0
    ensures Unpack(n, k) == [n % 2 == 1] + Unpack(n / 2, k - 1)
  {
  }

  lemma IdTooShort(bits: Bits, b: Bytes)
    requires !bits[0] && !bits[1] && !bits[2] && !bits[3] && bits[4] && |b| == 4
    ensures !TakeFields(bits, 0, b).Ok?
  {
    assert TakeFields(bits, 4, b).Fail?;
    assert TakeFields(bits, 3, b).Fail?;
    assert TakeFields(bits, 2, b).Fail?;
    assert TakeFields(bits, 1, b).Fail?;
  }
}
