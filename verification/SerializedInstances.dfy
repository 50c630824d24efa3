/** SerializedInstance as an object: add operations append to the data, get operations move an extraction
    position. Serializing and deserializing the messages are methods with the loops of the source. */
module SerializedInstances {
  import opened Wrappers
  import opened WireFormat
  import opened WireMessages

  class SerializedInstance {
    var data: seq<Byte>
    var extractAt: nat
    var extractIteratorInitialized: bool

    /** What the next get operation reads; None if the leading type name cannot be read. */
    ghost function Remaining(): Option<seq<Byte>>
      reads this
    {
      if extractIteratorInitialized then (if extractAt <= |data| then Some(data[extractAt..]) else None)
      else match GetStr(data) case None => None case Some((_, rest)) => Some(rest)
    }

    constructor FromType(dataType: seq<Byte>)
      ensures data == AddBlob(dataType + [0]) && !extractIteratorInitialized
    {
      data, extractAt, extractIteratorInitialized := AddBlob(dataType + [0]), 0, false;
    }

    constructor FromData(initData: seq<Byte>)
      ensures data == initData && !extractIteratorInitialized
    {
      data, extractAt, extractIteratorInitialized := initData, 0, false;
    }

    // ----- add -----

    method WriteInt(u: UInt32)
      modifies this`data
      ensures data == old(data) + Bytes4(u)
    {
      data := data + Bytes4(u);
    }

    method AddBytes(toAdd: seq<Byte>)
      modifies this`data
      ensures data == old(data) + Add(Blob(toAdd))
    {
      WriteInt(CHAR_BLOB);
      WriteInt(Size(|toAdd|));
      data := data + toAdd;
      assert data == old(data) + (Bytes4(CHAR_BLOB) + Bytes4(Size(|toAdd|)) + toAdd);
    }

    method AddString(toAdd: seq<Byte>)
      modifies this`data
      ensures data == old(data) + Add(Str(toAdd))
    {
      AddBytes(toAdd + [0]);
    }

    method AddUnsigned(toAdd: UInt32)
      modifies this`data
      ensures data == old(data) + Add(Unsigned(toAdd))
    {
      WriteInt(UNSIGNED);
      WriteInt(toAdd);
      assert data == old(data) + (Bytes4(UNSIGNED) + Bytes4(toAdd));
    }

    method AddInt(toAdd: Int32)
      modifies this`data
      ensures data == old(data) + Add(Int(toAdd))
    {
      WriteInt(INT);
      WriteInt(AsUnsigned(toAdd));
      assert data == old(data) + (Bytes4(INT) + Bytes4(AsUnsigned(toAdd)));
    }

    method AddInt64(toAdd: Int64)
      modifies this`data
      ensures data == old(data) + Add(LongLong(toAdd))
    {
      WriteInt(LONGLONG);
      data := data + Bytes8(toAdd);
      assert data == old(data) + (Bytes4(LONGLONG) + Bytes8(toAdd));
    }

    method AddDouble(toAdd: Bits64)
      modifies this`data
      ensures data == old(data) + Add(Double(toAdd))
    {
      WriteInt(DOUBLE);
      data := data + toAdd;
      assert data == old(data) + (Bytes4(DOUBLE) + toAdd);
    }

    method AddSerializedInstance(toAdd: seq<Byte>)
      modifies this`data
      ensures data == old(data) + (Bytes4(SERIALIZED_INSTANCE) + AddBlob(toAdd))
    {
      WriteInt(SERIALIZED_INSTANCE);
      AddBytes(toAdd);
      assert data == old(data) + (Bytes4(SERIALIZED_INSTANCE) + AddBlob(toAdd));
    }

    // ----- get -----

    /** The type name, without moving the extraction position. */
    method GetDataType() returns (t: Option<seq<Byte>>)
      ensures t == match GetStr(data) case None => None case Some((s, _)) => Some(s)
    {
      var s := GetStr(data);
      t := match s case None => None case Some((name, _)) => Some(name);
    }

    /** A raw 32-bit read. */
    method ReadUnsigned() returns (u: Option<UInt32>)
      requires extractIteratorInitialized && extractAt <= |data|
      modifies this`extractAt
      ensures extractAt <= |data|
      ensures var s := old(data[extractAt..]);
              if |s| < 4 then u == None else u == Some(Read4(s)) && data[extractAt..] == s[4..]
    {
      if |data| - extractAt < 4 { return None; }
      ghost var s := data[extractAt..];
      u := Some(Read4(data[extractAt..]));
      extractAt := extractAt + 4;
      assert data[extractAt..] == s[4..];
    }

    /** readBytes. */
    method ReadBytes(n: nat) returns (s: Option<seq<Byte>>)
      requires extractIteratorInitialized && extractAt <= |data|
      modifies this`extractAt
      ensures extractAt <= |data|
      ensures var r := old(data[extractAt..]);
              if |r| < n then s == None else s == Some(r[..n]) && data[extractAt..] == r[n..]
    {
      if |data| - extractAt < n { return None; }
      ghost var r := data[extractAt..];
      s := Some(data[extractAt..extractAt + n]);
      extractAt := extractAt + n;
      assert data[extractAt..] == r[n..] && s.value == r[..n];
    }

    /** checkType. */
    method ReadTag(tag: UInt32) returns (ok: bool)
      requires extractIteratorInitialized && extractAt <= |data|
      modifies this`extractAt
      ensures extractAt <= |data|
      ensures var s := old(data[extractAt..]);
              if Tagged(tag, s) == None then !ok else ok && data[extractAt..] == Tagged(tag, s).value
    {
      var u := ReadUnsigned();
      ok := u == Some(tag);
    }

    /** getVectorChar once extraction has begun. */
    method ReadBlob() returns (s: Option<seq<Byte>>)
      requires extractIteratorInitialized && extractAt <= |data|
      modifies this`extractAt
      ensures extractAt <= |data|
      ensures match GetBlob(old(data[extractAt..]))
              case None => s == None
              case Some((t, rest)) => s == Some(t) && data[extractAt..] == rest
    {
      var ok := ReadTag(CHAR_BLOB);
      if !ok { return None; }
      ghost var r := data[extractAt..];
      var n := ReadUnsigned();
      if n == None || |data| - extractAt < n.value { return None; }
      s := Some(data[extractAt..extractAt + n.value]);
      extractAt := extractAt + n.value;
      assert data[extractAt..] == r[4 + n.value..] && s.value == r[4..4 + n.value];
    }

    /** The leading type name is pulled off before the first field. */
    method InitExtract() returns (ok: bool)
      modifies this`extractAt, this`extractIteratorInitialized
      ensures if old(Remaining()) == None then !ok
              else ok && extractIteratorInitialized && extractAt <= |data|
                   && data[extractAt..] == old(Remaining()).value
    {
      if !extractIteratorInitialized {
        extractAt := 0;
        extractIteratorInitialized := true;
        assert data[0..] == data;
        var s := ReadBlob();
        return s.Some?;
      }
      ok := extractAt <= |data|;
    }

    method GetString() returns (s: Option<seq<Byte>>)
      modifies this`extractAt, this`extractIteratorInitialized
      ensures match old(Remaining())
              case None => s == None
              case Some(r) =>
                match GetStr(r) case None => s == None case Some((t, rest)) => s == Some(t) && Remaining() == Some(rest)
    {
      var ok := InitExtract();
      if !ok { return None; }
      s := ReadBlob();
      if s.Some? && |s.value| > 0 {
        s := Some(s.value[..|s.value| - 1]);
      }
    }

    method GetUnsigned() returns (u: Option<UInt32>)
      modifies this`extractAt, this`extractIteratorInitialized
      ensures match old(Remaining())
              case None => u == None
              case Some(r) =>
                match WireMessages.GetUnsigned(r)
                case None => u == None
                case Some((v, rest)) => u == Some(v) && Remaining() == Some(rest)
    {
      var ok := InitExtract();
      if !ok { return None; }
      ok := ReadTag(UNSIGNED);
      if !ok { return None; }
      u := ReadUnsigned();
    }

    method GetInt() returns (i: Option<Int32>)
      modifies this`extractAt, this`extractIteratorInitialized
      ensures match old(Remaining())
              case None => i == None
              case Some(r) =>
                match WireMessages.GetInt(r)
                case None => i == None
                case Some((v, rest)) => i == Some(v) && Remaining() == Some(rest)
    {
      i := None;
      var ok := InitExtract();
      if !ok { return None; }
      ok := ReadTag(INT);
      if !ok { return None; }
      var u := ReadUnsigned();
      if u.Some? {
        i := Some(AsInt(u.value));
      }
    }

    method GetInt64() returns (i: Option<Int64>)
      modifies this`extractAt, this`extractIteratorInitialized
      ensures match old(Remaining())
              case None => i == None
              case Some(r) =>
                match Get(ALongLong, r)
                case None => i == None
                case Some((f, rest)) => f == LongLong(f.int64) && i == Some(f.int64) && Remaining() == Some(rest)
    {
      var ok := InitExtract();
      if !ok { return None; }
      ok := ReadTag(LONGLONG);
      if !ok || |data| - extractAt < 8 { return None; }
      i := Some(Read8(data[extractAt..]));
      var skipped := ReadBytes(8);
    }

    method GetDouble() returns (d: Option<Bits64>)
      modifies this`extractAt, this`extractIteratorInitialized
      ensures match old(Remaining())
              case None => d == None
              case Some(r) =>
                match Get(ADouble, r)
                case None => d == None
                case Some((f, rest)) => f == Double(f.bits) && d == Some(f.bits) && Remaining() == Some(rest)
    {
      var ok := InitExtract();
      if !ok { return None; }
      ok := ReadTag(DOUBLE);
      if !ok { return None; }
      d := ReadBytes(8);
    }

    method GetVectorChar() returns (s: Option<seq<Byte>>)
      modifies this`extractAt, this`extractIteratorInitialized
      ensures match old(Remaining())
              case None => s == None
              case Some(r) =>
                match GetBlob(r)
                case None => s == None
                case Some((t, rest)) => s == Some(t) && Remaining() == Some(rest)
    {
      var ok := InitExtract();
      if !ok { return None; }
      s := ReadBlob();
    }

    /** getBytes, with assertions compiled in or not. */
    method GetBytes(assertions: bool, numBytes: UInt32) returns (s: Option<seq<Byte>>)
      modifies this`extractAt, this`extractIteratorInitialized
      ensures match old(Remaining())
              case None => s == None
              case Some(r) =>
                match WireFormat.GetBytes(assertions, numBytes, r)
                case None => s == None
                case Some((t, rest)) => s == Some(t) && Remaining() == Some(rest)
    {
      var ok := InitExtract();
      if !ok { return None; }
      ok := ReadTag(CHAR_BLOB);
      if !ok { return None; }
      if assertions {
        SkipSize(data[extractAt..], numBytes);
        ok := ReadTag(numBytes);
        if !ok { return None; }
      }
      s := ReadBytes(numBytes);
    }

    /** The bytes of a nested object. */
    method GetSerializedInstance() returns (s: Option<seq<Byte>>)
      modifies this`extractAt, this`extractIteratorInitialized
      ensures match old(Remaining())
              case None => s == None
              case Some(r) =>
                match GetObject(r)
                case None => s == None
                case Some((t, rest)) => s == Some(t) && Remaining() == Some(rest)
    {
      var ok := InitExtract();
      if !ok { return None; }
      ok := ReadTag(SERIALIZED_INSTANCE);
      if !ok { return None; }
      s := ReadBlob();
    }
  }

  lemma SkipSize(r: seq<Byte>, n: nat)
    ensures |r| >= 4 + n ==> r[4..][..n] == r[4..4 + n] && r[4..][n..] == r[4 + n..]
  {
  }

  // ----- serialize -----

  method SerializeTime(t: Int32) returns (bytes: seq<Byte>)
    ensures bytes == Serialized(TIME_TYPE, [Int(t)])
  {
    var s := new SerializedInstance.FromType(TIME_TYPE);
    s.AddInt(t);
    AddAllOne(Int(t));
    bytes := s.data;
  }

  method AddTime(s: SerializedInstance, t: Int32)
    modifies s`data
    ensures s.data == old(s.data) + Add(TimeField(t))
  {
    var bytes := SerializeTime(t);
    s.AddSerializedInstance(bytes);
  }

  method SerializeEvent(e: NegativeEvent) returns (bytes: seq<Byte>)
    ensures bytes == Serialized(EVENT_TYPE, EventFields(e))
  {
    var s := new SerializedInstance.FromType(EVENT_TYPE);
    ghost var start := s.data;
    AddTime(s, e.sendTime);
    AddTime(s, e.receiveTime);
    AddNumbers(s, EventNumbers(e));
    EventLayout(e);
    JoinThree(start, Add(TimeField(e.sendTime)), Add(TimeField(e.receiveTime)), AddAll(Unsigneds(EventNumbers(e))));
    bytes := s.data;
  }

  method AddNumbers(s: SerializedInstance, us: seq<UInt32>)
    modifies s`data
    ensures s.data == old(s.data) + AddAll(Unsigneds(us))
  {
    var i := 0;
    assert us[..0] == [];
    while i < |us|
      invariant 0 <= i <= |us| && s.data == old(s.data) + AddAll(Unsigneds(us[..i]))
    {
      s.AddUnsigned(us[i]);
      UnsignedsSnoc(us, i);
      i := i + 1;
    }
    assert us[..i] == us;
  }

  lemma UnsignedsSnoc(us: seq<UInt32>, i: nat)
    requires i < |us|
    ensures AddAll(Unsigneds(us[..i + 1])) == AddAll(Unsigneds(us[..i])) + Add(Unsigned(us[i]))
  {
    assert us[..i + 1][..i] == us[..i];
    AddAllSnoc(Unsigneds(us[..i]), NumberField(us[i]), []);
  }

  lemma AddEventsSnoc(es: seq<NegativeEvent>, i: nat)
    requires i < |es|
    ensures AddAll(Events(es[..i + 1])) == AddAll(Events(es[..i])) + Add(EventField(es[i]))
  {
    assert es[..i + 1][..i] == es[..i];
    AddAllSnoc(Events(es[..i]), EventField(es[i]), []);
  }

  method AddEvent(s: SerializedInstance, e: NegativeEvent)
    modifies s`data
    ensures s.data == old(s.data) + Add(EventField(e))
  {
    var bytes := SerializeEvent(e);
    s.AddSerializedInstance(bytes);
  }

  lemma JoinThree(d: seq<Byte>, a: seq<Byte>, b: seq<Byte>, c: seq<Byte>)
    ensures ((d + a) + b) + c == d + (a + (b + c))
  {
  }

  lemma JoinFour(d: seq<Byte>, a: seq<Byte>, b: seq<Byte>, c: seq<Byte>, e: seq<Byte>)
    ensures (((d + a) + b) + c) + e == d + (a + (b + (c + e)))
  {
  }

  method AddEvents(s: SerializedInstance, es: seq<NegativeEvent>)
    modifies s`data
    ensures s.data == old(s.data) + AddAll(Events(es))
  {
    var i := 0;
    assert es[..0] == [];
    while i < |es|
      invariant 0 <= i <= |es| && s.data == old(s.data) + AddAll(Events(es[..i]))
    {
      AddEvent(s, es[i]);
      Assoc(old(s.data), AddAll(Events(es[..i])), Add(EventField(es[i])));
      AddEventsSnoc(es, i);
      i := i + 1;
    }
    assert es[..i] == es;
  }

  method SerializeNegative(m: NegativeEventMessage) returns (bytes: seq<Byte>)
    ensures bytes == Serialized(NEGATIVE_TYPE, NegativeFields(m))
  {
    var s := new SerializedInstance.FromType(NEGATIVE_TYPE);
    ghost var start := s.data;
    AddNumbers(s, [m.source, m.dest, m.incarnation, Size(|m.events|)]);
    AddEvents(s, m.events);
    s.AddString(m.gvtInfo);
    NegativeLayout(m);
    JoinThree(start, AddAll(Unsigneds([m.source, m.dest, m.incarnation, Size(|m.events|)])), AddAll(Events(m.events)),
      Add(Str(m.gvtInfo)));
    bytes := s.data;
  }

  method SerializeGVT(m: GVTMessage) returns (bytes: seq<Byte>)
    ensures bytes == Serialized(GVT_TYPE, GVTFields(m))
  {
    var s := new SerializedInstance.FromType(GVT_TYPE);
    ghost var start := s.data;
    AddNumbers(s, [m.source, m.dest, m.incarnation]);
    AddTime(s, m.lastScheduled);
    AddTime(s, m.minimum);
    s.AddUnsigned(AsUnsigned(m.inTransit));
    GVTLayout(m);
    JoinFour(start, AddAll(Unsigneds([m.source, m.dest, m.incarnation])), Add(TimeField(m.lastScheduled)),
             Add(TimeField(m.minimum)), Add(Unsigned(AsUnsigned(m.inTransit))));
    bytes := s.data;
  }

  // ----- deserialize -----

  /** An object of the expected type, ready for its first field. */
  method Open(dataType: seq<Byte>, bytes: seq<Byte>) returns (s: SerializedInstance, ok: bool)
    ensures fresh(s)
    ensures match Body(dataType, bytes) case None => !ok case Some(body) => ok && s.Remaining() == Some(body)
  {
    s := new SerializedInstance.FromData(bytes);
    var t := s.GetDataType();
    ok := t == Some(dataType);
  }

  method DeserializeTime(bytes: seq<Byte>) returns (t: Option<Int32>)
    ensures t == TimeOf(bytes)
  {
    var s, ok := Open(TIME_TYPE, bytes);
    if !ok { return None; }
    t := s.GetInt();
  }

  method ReadTime(s: SerializedInstance) returns (t: Option<Int32>)
    requires s.Remaining().Some?
    modifies s`extractAt, s`extractIteratorInitialized
    ensures match GetTime(old(s.Remaining()).value)
            case None => t == None
            case Some((v, rest)) => t == Some(v) && s.Remaining() == Some(rest)
  {
    var inner := s.GetSerializedInstance();
    if inner == None { return None; }
    t := DeserializeTime(inner.value);
  }

  method ReadTimes(s: SerializedInstance) returns (t: Option<(Int32, Int32)>)
    requires s.Remaining().Some?
    modifies s`extractAt, s`extractIteratorInitialized
    ensures match GetTimes(old(s.Remaining()).value)
            case None => t == None
            case Some((v, rest)) => t == Some(v) && s.Remaining() == Some(rest)
  {
    var a := ReadTime(s);
    if a == None { return None; }
    var b := ReadTime(s);
    if b == None { return None; }
    t := Some((a.value, b.value));
  }

  method ReadNumbers(s: SerializedInstance, n: nat) returns (us: Option<seq<UInt32>>)
    requires s.Remaining().Some?
    modifies s`extractAt, s`extractIteratorInitialized
    ensures match GetList(WireMessages.GetUnsigned, n, old(s.Remaining()).value)
            case None => us == None
            case Some((v, rest)) => us == Some(v) && s.Remaining() == Some(rest)
  {
    var done := [];
    var i := 0;
    ghost var start := s.Remaining().value;
    while i < n
      invariant 0 <= i <= n && s.Remaining().Some?
      invariant GetList(WireMessages.GetUnsigned, i, start) == Some((done, s.Remaining().value))
    {
      var u := s.GetUnsigned();
      if u == None {
        ListFails(WireMessages.GetUnsigned, i + 1, n, start);
        return None;
      }
      done := done + [u.value];
      i := i + 1;
    }
    us := Some(done);
  }

  method DeserializeEvent(bytes: seq<Byte>) returns (e: Option<NegativeEvent>)
    ensures e == EventOf(bytes)
  {
    var s, ok := Open(EVENT_TYPE, bytes);
    if !ok { return None; }
    var ts := ReadTimes(s);
    if ts == None { return None; }
    var us := ReadNumbers(s, NUMBERS);
    if us == None || |us.value| != NUMBERS { return None; }
    var v := us.value;
    e := Some(NegativeEvent(ts.value.0, ts.value.1, v[0], v[1], v[2], v[3], v[4]));
  }

  method ReadEvent(s: SerializedInstance) returns (e: Option<NegativeEvent>)
    requires s.Remaining().Some?
    modifies s`extractAt, s`extractIteratorInitialized
    ensures match GetEvent(old(s.Remaining()).value)
            case None => e == None
            case Some((v, rest)) => e == Some(v) && s.Remaining() == Some(rest)
  {
    var inner := s.GetSerializedInstance();
    if inner == None { return None; }
    e := DeserializeEvent(inner.value);
  }

  method ReadEvents(s: SerializedInstance, n: nat) returns (es: Option<seq<NegativeEvent>>)
    requires s.Remaining().Some?
    modifies s`extractAt, s`extractIteratorInitialized
    ensures match GetList(GetEvent, n, old(s.Remaining()).value)
            case None => es == None
            case Some((v, rest)) => es == Some(v) && s.Remaining() == Some(rest)
  {
    var done := [];
    var i := 0;
    ghost var start := s.Remaining().value;
    while i < n
      invariant 0 <= i <= n && s.Remaining().Some?
      invariant GetList(GetEvent, i, start) == Some((done, s.Remaining().value))
    {
      ghost var before := s.Remaining().value;
      var e := ReadEvent(s);
      if e == None {
        ListFails(GetEvent, i + 1, n, start);
        return None;
      }
      ListStep(GetEvent, i + 1, start, done, before, e.value, s.Remaining().value);
      done := done + [e.value];
      i := i + 1;
    }
    es := Some(done);
  }

  /** Deserializing what SerializeNegative produced gives the message back. */
  method DeserializeNegative(bytes: seq<Byte>) returns (m: Option<NegativeEventMessage>)
    ensures m == NegativeOf(bytes)
  {
    var s, ok := Open(NEGATIVE_TYPE, bytes);
    if !ok { return None; }
    var h := ReadNumbers(s, HEADER + 1);
    if h == None || |h.value| != HEADER + 1 { return None; }
    var es := ReadEvents(s, h.value[3]);
    if es == None { return None; }
    var t := s.GetString();
    if t == None { return None; }
    m := Some(NegativeEventMessage(h.value[0], h.value[1], h.value[2], es.value, t.value));
  }

  method ReadCut(s: SerializedInstance) returns (c: Option<((Int32, Int32), Int32)>)
    requires s.Remaining().Some?
    modifies s`extractAt, s`extractIteratorInitialized
    ensures match GetCut(old(s.Remaining()).value)
            case None => c == None
            case Some((v, rest)) => c == Some(v) && s.Remaining() == Some(rest)
  {
    var ts := ReadTimes(s);
    if ts == None { return None; }
    var n := s.GetUnsigned();
    if n == None { return None; }
    c := Some((ts.value, AsInt(n.value)));
  }

  method DeserializeGVT(bytes: seq<Byte>) returns (m: Option<GVTMessage>)
    ensures m == GVTOf(bytes)
  {
    var s, ok := Open(GVT_TYPE, bytes);
    if !ok { return None; }
    var h := ReadNumbers(s, HEADER);
    if h == None || |h.value| != HEADER { return None; }
    var c := ReadCut(s);
    if c == None { return None; }
    m := Some(GVTMessage(h.value[0], h.value[1], h.value[2], c.value.0.0, c.value.0.1, c.value.1));
  }
}
