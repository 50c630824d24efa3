module WireFormat {
  // The tagged, nested byte format of SerializedInstance on values: what the add operations append and what
  // the matching get operations read back. None stands for the abort on a wrong tag or missing bytes.

  import opened Wrappers

  type Byte = b: nat | b < 256
  type UInt32 = u: nat | u < 0x1_0000_0000
  type Int32 = i: int | -0x8000_0000 <= i < 0x8000_0000
  type Int64 = i: int | -0x8000_0000_0000_0000 <= i < 0x8000_0000_0000_0000

  const CHAR_BLOB := 0
  const INT := 1
  const UNSIGNED := 2
  const LONGLONG := 3
  const DOUBLE := 4
  const SERIALIZED_INSTANCE := 5

  /** A double is carried as the eight bytes of its representation. */
  type Bits64 = s: seq<Byte> | |s| == 8 witness [0, 0, 0, 0, 0, 0, 0, 0]

  /** Something one add operation appends; an object is its data type and the fields it adds. */
  datatype Field =
    | Blob(bytes: seq<Byte>)
    | Str(text: seq<Byte>)
    | Int(int32: Int32)
    | Unsigned(uint32: UInt32)
    | LongLong(int64: Int64)
    | Double(bits: Bits64)
    | Instance(dataType: seq<Byte>, fields: seq<Field>)

  /** The get operation that matches. */
  datatype Shape =
    | ABlob | AStr | AnInt | AnUnsigned | ALongLong | ADouble
    | AnInstance(fields: seq<Shape>)

  // ----- raw layer: little-endian integers -----

  function Bytes4(u: UInt32): (s: seq<Byte>)
    ensures |s| == 4
  {
    [u % 256, u / 0x100 % 256, u / 0x1_0000 % 256, u / 0x100_0000]
  }

  function Read4(s: seq<Byte>): UInt32
    requires |s| >= 4
  {
    var (b0: nat, b1: nat, b2: nat, b3: nat) := (s[0], s[1], s[2], s[3]);
    b0 + 0x100 * b1 + 0x1_0000 * b2 + 0x100_0000 * b3
  }

  /** reinterpret_cast between int and unsigned. */
  function AsUnsigned(i: Int32): UInt32 { if i < 0 then i + 0x1_0000_0000 else i }

  function AsInt(u: UInt32): Int32 { if u >= 0x8000_0000 then u - 0x1_0000_0000 else u }

  function Bytes8(i: Int64): (s: seq<Byte>)
    ensures |s| == 8
  {
    var u: nat := if i < 0 then i + 0x1_0000_0000_0000_0000 else i;
    Bytes4(u % 0x1_0000_0000) + Bytes4(u / 0x1_0000_0000)
  }

  function Read8(s: seq<Byte>): Int64
    requires |s| >= 8
  {
    var u: nat := Read4(s) + 0x1_0000_0000 * Read4(s[4..]);
    if u >= 0x8000_0000_0000_0000 then u - 0x1_0000_0000_0000_0000 else u
  }

  /** A size is written as an int: only its low 32 bits survive. */
  function Size(n: nat): UInt32 { n % 0x1_0000_0000 }

  // ----- add -----

  function AddBlob(s: seq<Byte>): seq<Byte> {
    Bytes4(CHAR_BLOB) + Bytes4(Size(|s|)) + s
  }

  function Add(f: Field): seq<Byte>
    decreases f, 0
  {
    match f
    case Blob(s) => AddBlob(s)
    case Str(s) => AddBlob(s + [0])
    case Int(i) => Bytes4(INT) + Bytes4(AsUnsigned(i))
    case Unsigned(u) => Bytes4(UNSIGNED) + Bytes4(u)
    case LongLong(i) => Bytes4(LONGLONG) + Bytes8(i)
    case Double(s) => Bytes4(DOUBLE) + s
    case Instance(t, fs) => Bytes4(SERIALIZED_INSTANCE) + AddBlob(AddBlob(t + [0]) + AddAll(fs))
  }

  function AddAll(fs: seq<Field>): seq<Byte>
    decreases fs, 1
  {
    if fs == [] then [] else Add(fs[0]) + AddAll(fs[1..])
  }

  /** A whole serialized object. */
  function Serialized(dataType: seq<Byte>, fs: seq<Field>): seq<Byte> {
    AddBlob(dataType + [0]) + AddAll(fs)
  }

  // ----- get -----

  /** A tag and what follows it. */
  function Tagged(tag: UInt32, s: seq<Byte>): Option<seq<Byte>> {
    if |s| >= 4 && Read4(s) == tag then Some(s[4..]) else None
  }

  function GetBlob(s: seq<Byte>): Option<(seq<Byte>, seq<Byte>)> {
    match Tagged(CHAR_BLOB, s)
    case None => None
    case Some(r) =>
      if |r| < 4 || |r| < 4 + Read4(r) then None else Some((r[4..4 + Read4(r)], r[4 + Read4(r)..]))
  }

  /** getBytes compares the size with the one expected in an assertion, and reads it there: without assertions
      compiled in, the bytes of the size are taken for the first bytes of the blob. */
  function GetBytes(assertions: bool, n: UInt32, s: seq<Byte>): Option<(seq<Byte>, seq<Byte>)> {
    match Tagged(CHAR_BLOB, s)
    case None => None
    case Some(r) =>
      if !assertions then
        if |r| < n then None else Some((r[..n], r[n..]))
      else if |r| < 4 + n || Read4(r) != n then None
      else Some((r[4..4 + n], r[4 + n..]))
  }

  /** The terminating zero is dropped. */
  function GetStr(s: seq<Byte>): Option<(seq<Byte>, seq<Byte>)> {
    match GetBlob(s)
    case None => None
    case Some((t, rest)) => Some((if t == [] then [] else t[..|t| - 1], rest))
  }

  function Get(h: Shape, s: seq<Byte>): (r: Option<(Field, seq<Byte>)>)
    decreases h, 0
  {
    match h
    case ABlob => (match GetBlob(s) case None => None case Some((t, rest)) => Some((Blob(t), rest)))
    case AStr => (match GetStr(s) case None => None case Some((t, rest)) => Some((Str(t), rest)))
    case AnInt =>
      (match Tagged(INT, s)
       case None => None
       case Some(r) => if |r| < 4 then None else Some((Int(AsInt(Read4(r))), r[4..])))
    case AnUnsigned =>
      (match Tagged(UNSIGNED, s)
       case None => None
       case Some(r) => if |r| < 4 then None else Some((Unsigned(Read4(r)), r[4..])))
    case ALongLong =>
      (match Tagged(LONGLONG, s)
       case None => None
       case Some(r) => if |r| < 8 then None else Some((LongLong(Read8(r)), r[8..])))
    case ADouble =>
      (match Tagged(DOUBLE, s)
       case None => None
       case Some(r) => if |r| < 8 then None else Some((Double(r[..8]), r[8..])))
    case AnInstance(hs) =>
      (match Tagged(SERIALIZED_INSTANCE, s)
       case None => None
       case Some(r) =>
         match GetBlob(r)
         case None => None
         case Some((inner, rest)) =>
           match GetStr(inner)
           case None => None
           case Some((t, body)) =>
             match GetAll(hs, body)
             case None => None
             case Some((fs, _)) => Some((Instance(t, fs), rest)))
  }

  function GetAll(hs: seq<Shape>, s: seq<Byte>): (r: Option<(seq<Field>, seq<Byte>)>)
    decreases hs, 1
  {
    if hs == [] then Some(([], s))
    else
      match Get(hs[0], s)
      case None => None
      case Some((f, rest)) =>
        match GetAll(hs[1..], rest)
        case None => None
        case Some((fs, rest')) => Some(([f] + fs, rest'))
  }

  // ----- round trip -----

  function ShapeOf(f: Field): Shape
    decreases f, 0
  {
    match f
    case Blob(_) => ABlob
    case Str(_) => AStr
    case Int(_) => AnInt
    case Unsigned(_) => AnUnsigned
    case LongLong(_) => ALongLong
    case Double(_) => ADouble
    case Instance(_, fs) => AnInstance(ShapesOf(fs))
  }

  function ShapesOf(fs: seq<Field>): (hs: seq<Shape>)
    decreases fs, 1
  {
    if fs == [] then [] else [ShapeOf(fs[0])] + ShapesOf(fs[1..])
  }

  /** Every blob, string and nested object is shorter than 2^32 bytes. */
  predicate Small(f: Field)
    decreases f, 0
  {
    match f
    case Blob(s) => |s| < 0x1_0000_0000
    case Str(s) => |s| + 1 < 0x1_0000_0000
    case Instance(t, fs) => |t| + 1 < 0x1_0000_0000 && |Serialized(t, fs)| < 0x1_0000_0000 && AllSmall(fs)
    case _ => true
  }

  predicate AllSmall(fs: seq<Field>)
    decreases fs, 1
  {
    fs == [] || (Small(fs[0]) && AllSmall(fs[1..]))
  }

  lemma Digits(u: nat)
    ensures u == u % 256 + 0x100 * (u / 0x100 % 256) + 0x1_0000 * (u / 0x1_0000 % 256) + 0x100_0000 * (u / 0x100_0000)
  {
    var v := u / 0x100;
    var w := v / 0x100;
    assert u == u % 256 + 0x100 * v && v == v % 256 + 0x100 * w && w == w % 256 + 0x100 * (w / 0x100);
    assert w == u / 0x1_0000;
    assert w / 0x100 == u / 0x100_0000;
  }

  lemma ReadBytes4(u: UInt32, rest: seq<Byte>)
    ensures Read4(Bytes4(u) + rest) == u && (Bytes4(u) + rest)[4..] == rest
  {
    var s := Bytes4(u) + rest;
    assert s[0] == u % 256 && s[1] == u / 0x100 % 256 && s[2] == u / 0x1_0000 % 256 && s[3] == u / 0x100_0000;
    Digits(u);
  }

  lemma ReadBytes8(i: Int64, rest: seq<Byte>)
    ensures Read8(Bytes8(i) + rest) == i && (Bytes8(i) + rest)[8..] == rest
  {
    var u: nat := if i < 0 then i + 0x1_0000_0000_0000_0000 else i;
    var lo, hi := Bytes4(u % 0x1_0000_0000), Bytes4(u / 0x1_0000_0000);
    assert Bytes8(i) + rest == lo + (hi + rest);
    ReadBytes4(u % 0x1_0000_0000, hi + rest);
    ReadBytes4(u / 0x1_0000_0000, rest);
  }

  lemma GetTag(tag: UInt32, rest: seq<Byte>)
    ensures Tagged(tag, Bytes4(tag) + rest) == Some(rest)
  {
    ReadBytes4(tag, rest);
  }

  lemma Sections(a: seq<Byte>, b: seq<Byte>, n: nat)
    requires |a| == 4 && n <= |b|
    ensures (a + b)[4..4 + n] == b[..n] && (a + b)[4 + n..] == b[n..]
  {
  }

  /** What getVectorChar makes of a blob: as many bytes as the size that was written says. */
  lemma GetBlobBack(s: seq<Byte>, rest: seq<Byte>)
    ensures Size(|s|) <= |s| && GetBlob(AddBlob(s) + rest) == Some(((s + rest)[..Size(|s|)], (s + rest)[Size(|s|)..]))
  {
    var n, t := Size(|s|), s + rest;
    assert AddBlob(s) + rest == Bytes4(CHAR_BLOB) + (Bytes4(n) + t);
    GetTag(CHAR_BLOB, Bytes4(n) + t);
    ReadBytes4(n, t);
    Sections(Bytes4(n), t, n);
  }

  /** A blob comes back with nothing left over exactly when its length fits in 32 bits. */
  lemma BlobRoundTripIff(s: seq<Byte>, rest: seq<Byte>)
    ensures GetBlob(AddBlob(s) + rest) == Some((s, rest)) <==> |s| < 0x1_0000_0000
  {
    GetBlobBack(s, rest);
    var n := Size(|s|);
    if n == |s| {
      assert (s + rest)[..n] == s && (s + rest)[n..] == rest;
    } else {
      assert |(s + rest)[..n]| < |s|;
    }
  }

  /** getBytes returns what addBytes was given, and all of it, exactly when it is asked for that many bytes and
      assertions are compiled in. Without them it returns the size first. */
  lemma BytesRoundTripIff(assertions: bool, n: UInt32, s: seq<Byte>, rest: seq<Byte>)
    ensures GetBytes(assertions, n, AddBlob(s) + rest) == Some((s, rest)) <==> assertions && n == |s|
    ensures var t := Bytes4(Size(|s|)) + (s + rest);
            !assertions && n <= |t| ==> GetBytes(assertions, n, AddBlob(s) + rest) == Some((t[..n], t[n..]))
  {
    BlobTagged(s, rest);
    if assertions { AssertedBytes(n, s, rest); }
  }

  lemma BlobTagged(s: seq<Byte>, rest: seq<Byte>)
    ensures Tagged(CHAR_BLOB, AddBlob(s) + rest) == Some(Bytes4(Size(|s|)) + (s + rest))
  {
    var t := Bytes4(Size(|s|)) + (s + rest);
    assert AddBlob(s) + rest == Bytes4(CHAR_BLOB) + t;
    GetTag(CHAR_BLOB, t);
  }

  lemma AssertedBytes(n: UInt32, s: seq<Byte>, rest: seq<Byte>)
    ensures GetBytes(true, n, AddBlob(s) + rest) == Some((s, rest)) <==> n == |s|
  {
    BlobTagged(s, rest);
    ReadBytes4(Size(|s|), s + rest);
    if n <= |s + rest| {
      Sections(Bytes4(Size(|s|)), s + rest, n);
      if n == |s| { assert (s + rest)[..n] == s && (s + rest)[n..] == rest; }
    }
  }

  lemma StrRoundTrip(s: seq<Byte>, rest: seq<Byte>)
    requires |s| + 1 < 0x1_0000_0000
    ensures GetStr(AddBlob(s + [0]) + rest) == Some((s, rest))
  {
    BlobRoundTripIff(s + [0], rest);
    assert (s + [0])[..|s|] == s;
  }

  /** What was added is what the matching get returns, and it stops exactly where the next field begins. */
  lemma {:induction false} RoundTrip(f: Field, rest: seq<Byte>)
    requires Small(f)
    ensures Get(ShapeOf(f), Add(f) + rest) == Some((f, rest))
    decreases f, 0
  {
    match f
    case Blob(s) => BlobRoundTripIff(s, rest);
    case Str(s) => StrRoundTrip(s, rest);
    case Int(i) =>
      assert Add(f) + rest == Bytes4(INT) + (Bytes4(AsUnsigned(i)) + rest);
      GetTag(INT, Bytes4(AsUnsigned(i)) + rest);
      ReadBytes4(AsUnsigned(i), rest);
    case Unsigned(u) =>
      assert Add(f) + rest == Bytes4(UNSIGNED) + (Bytes4(u) + rest);
      GetTag(UNSIGNED, Bytes4(u) + rest);
      ReadBytes4(u, rest);
    case LongLong(i) =>
      assert Add(f) + rest == Bytes4(LONGLONG) + (Bytes8(i) + rest);
      GetTag(LONGLONG, Bytes8(i) + rest);
      ReadBytes8(i, rest);
    case Double(s) =>
      assert Add(f) + rest == Bytes4(DOUBLE) + (s + rest);
      GetTag(DOUBLE, s + rest);
      assert (s + rest)[..8] == s && (s + rest)[8..] == rest;
    case Instance(t, fs) => InstanceRoundTrip(t, fs, rest);
  }

  lemma {:induction false} InstanceRoundTrip(t: seq<Byte>, fs: seq<Field>, rest: seq<Byte>)
    requires Small(Instance(t, fs))
    ensures Get(AnInstance(ShapesOf(fs)), Add(Instance(t, fs)) + rest) == Some((Instance(t, fs), rest))
    decreases fs, 2
  {
    var inner := Serialized(t, fs);
    var s := Add(Instance(t, fs)) + rest;
    assert s == Bytes4(SERIALIZED_INSTANCE) + (AddBlob(inner) + rest);
    GetTag(SERIALIZED_INSTANCE, AddBlob(inner) + rest);
    BlobRoundTripIff(inner, rest);
    StrRoundTrip(t, AddAll(fs));
    RoundTripAll(fs, []);
    assert AddAll(fs) + [] == AddAll(fs);
    GetInstance(ShapesOf(fs), s, AddBlob(inner) + rest, inner, rest, t, AddAll(fs), fs);
  }

  /** The layers a nested object is read through. */
  lemma GetInstance(hs: seq<Shape>, s: seq<Byte>, r: seq<Byte>, inner: seq<Byte>, rest: seq<Byte>,
                    t: seq<Byte>, body: seq<Byte>, fs: seq<Field>)
    requires Tagged(SERIALIZED_INSTANCE, s) == Some(r) && GetBlob(r) == Some((inner, rest))
    requires GetStr(inner) == Some((t, body)) && GetAll(hs, body) == Some((fs, []))
    ensures Get(AnInstance(hs), s) == Some((Instance(t, fs), rest))
  {
  }

  lemma {:induction false} RoundTripAll(fs: seq<Field>, rest: seq<Byte>)
    requires AllSmall(fs)
    ensures GetAll(ShapesOf(fs), AddAll(fs) + rest) == Some((fs, rest))
    decreases fs, 1
  {
    if fs == [] {
      assert AddAll(fs) + rest == rest;
    } else {
      assert AddAll(fs) + rest == Add(fs[0]) + (AddAll(fs[1..]) + rest);
      RoundTrip(fs[0], AddAll(fs[1..]) + rest);
      RoundTripAll(fs[1..], rest);
      assert ShapesOf(fs)[1..] == ShapesOf(fs[1..]);
      GetAllStep(ShapesOf(fs), AddAll(fs) + rest, fs[0], AddAll(fs[1..]) + rest, fs[1..], rest);
      assert fs == [fs[0]] + fs[1..];
    }
  }

  lemma GetAllStep(hs: seq<Shape>, s: seq<Byte>, f: Field, rest: seq<Byte>, fs: seq<Field>, rest': seq<Byte>)
    requires hs != [] && Get(hs[0], s) == Some((f, rest)) && GetAll(hs[1..], rest) == Some((fs, rest'))
    ensures GetAll(hs, s) == Some(([f] + fs, rest'))
  {
  }

  /** A whole object survives the wire: every byte is consumed and nothing changes. */
  lemma ObjectRoundTrip(dataType: seq<Byte>, fs: seq<Field>)
    requires |dataType| + 1 < 0x1_0000_0000 && AllSmall(fs)
    ensures var s := Serialized(dataType, fs);
            && GetStr(s) == Some((dataType, AddAll(fs)))
            && GetAll(ShapesOf(fs), AddAll(fs)) == Some((fs, []))
  {
    StrRoundTrip(dataType, AddAll(fs));
    RoundTripAll(fs, []);
    assert AddAll(fs) + [] == AddAll(fs);
  }

  // ----- what is on the wire -----

  /** The number a little-endian byte sequence stands for. */
  function Value(s: seq<Byte>): nat {
    if s == [] then 0 else s[0] + 0x100 * Value(s[1..])
  }

  lemma ValueOf4(s: seq<Byte>)
    requires |s| == 4
    ensures Value(s) == Read4(s)
  {
    assert s[1..][1..] == s[2..] && s[2..][1..] == s[3..] && s[3..] == [s[3]];
    assert Value(s[3..]) == s[3];
    assert Value(s[2..]) == s[2] + 0x100 * Value(s[3..]);
  }

  lemma {:induction false} ValueConcat(a: seq<Byte>, b: seq<Byte>, scale: nat)
    requires |a| == 4 && scale == 0x1_0000_0000
    ensures Value(a + b) == Value(a) + scale * Value(b)
  {
    var s := a + b;
    ValueOf4(a);
    assert s[1..][1..] == s[2..] && s[2..][1..] == s[3..] && s[3..][1..] == b;
    assert Value(s[3..]) == s[3] + 0x100 * Value(b);
    assert Value(s[2..]) == s[2] + 0x100 * Value(s[3..]);
  }

  /** Integers are written least significant byte first, negative ones as the two's complement. */
  lemma IntegersAreLittleEndian(u: UInt32, i: Int32, l: Int64)
    ensures Value(Bytes4(u)) == u
    ensures Value(Bytes4(AsUnsigned(i))) == if i < 0 then 0x1_0000_0000 + i else i
    ensures Value(Bytes8(l)) == if l < 0 then 0x1_0000_0000_0000_0000 + l else l
  {
    FourBytes(u);
    FourBytes(AsUnsigned(i));
    var v: nat := if l < 0 then l + 0x1_0000_0000_0000_0000 else l;
    FourBytes(v % 0x1_0000_0000);
    FourBytes(v / 0x1_0000_0000);
    ValueConcat(Bytes4(v % 0x1_0000_0000), Bytes4(v / 0x1_0000_0000), 0x1_0000_0000);
  }

  lemma FourBytes(u: UInt32)
    ensures Value(Bytes4(u)) == u
  {
    ValueOf4(Bytes4(u));
    Digits(u);
  }

  /** Whether a get operation is meant for what an add operation wrote; blobs and strings are written alike. */
  predicate Matches(h: Shape, f: Field) {
    match f
    case Blob(_) => h.ABlob? || h.AStr?
    case Str(_) => h.ABlob? || h.AStr?
    case Int(_) => h.AnInt?
    case Unsigned(_) => h.AnUnsigned?
    case LongLong(_) => h.ALongLong?
    case Double(_) => h.ADouble?
    case Instance(_, _) => h.AnInstance?
  }

  function TagOf(f: Field): UInt32 {
    match f
    case Blob(_) => CHAR_BLOB
    case Str(_) => CHAR_BLOB
    case Int(_) => INT
    case Unsigned(_) => UNSIGNED
    case LongLong(_) => LONGLONG
    case Double(_) => DOUBLE
    case Instance(_, _) => SERIALIZED_INSTANCE
  }

  lemma StartsWithTag(f: Field, rest: seq<Byte>)
    ensures |Add(f)| >= 4 && Read4(Add(f) + rest) == TagOf(f)
  {
    var s := Add(f);
    assert s == Bytes4(TagOf(f)) + s[4..];
    ReadBytes4(TagOf(f), s[4..] + rest);
    assert s + rest == Bytes4(TagOf(f)) + (s[4..] + rest);
  }

  /** A get operation meant for something else aborts. */
  lemma WrongGetAborts(h: Shape, f: Field, rest: seq<Byte>)
    requires !Matches(h, f)
    ensures Get(h, Add(f) + rest) == None
  {
    StartsWithTag(f, rest);
  }

  /** One of each, byte for byte. */
  lemma NumberExamples()
    ensures Add(Int(-2)) == [1, 0, 0, 0, 254, 255, 255, 255]
    ensures Add(Unsigned(258)) == [2, 0, 0, 0, 2, 1, 0, 0]
    ensures Add(Double([0, 0, 0, 0, 0, 0, 240, 63])) == [4, 0, 0, 0, 0, 0, 0, 0, 0, 0, 240, 63]
  {
  }

  lemma LongExample()
    ensures Add(LongLong(-1)) == [3, 0, 0, 0, 255, 255, 255, 255, 255, 255, 255, 255]
  {
    assert Bytes4(0xFFFF_FFFF) == [255, 255, 255, 255];
  }

  lemma BlobExamples()
    ensures Add(Blob([7, 8])) == [0, 0, 0, 0, 2, 0, 0, 0, 7, 8]
    ensures Add(Str([97])) == [0, 0, 0, 0, 2, 0, 0, 0, 97, 0]
  {
    assert Bytes4(2) == [2, 0, 0, 0] && Bytes4(0) == [0, 0, 0, 0];
    assert [97] + [0] == [97 as Byte, 0];
  }

  lemma InstanceExample()
    ensures Add(Instance([97], [])) == [5, 0, 0, 0, 0, 0, 0, 0, 10, 0, 0, 0, 0, 0, 0, 0, 2, 0, 0, 0, 97, 0]
  {
    BlobExamples();
    var inner: seq<Byte> := [0, 0, 0, 0, 2, 0, 0, 0, 97, 0];
    assert AddBlob([97] + [0]) == Add(Str([97]));
    assert AddBlob([97] + [0]) + AddAll([]) == inner;
    assert Bytes4(5) == [5, 0, 0, 0] && Bytes4(10) == [10, 0, 0, 0] && Bytes4(0) == [0, 0, 0, 0];
    assert AddBlob(inner) == [0, 0, 0, 0, 10, 0, 0, 0] + inner;
  }
}
