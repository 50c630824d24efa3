module WireMessages {
  // The messages that carry anti-messages and GVT tokens, as lists of fields.

  import opened Wrappers
  import opened WireFormat

  function Ascii(s: string): seq<Byte> {
    seq(|s|, i requires 0 <= i < |s| => s[i] as nat % 256)
  }

  datatype NegativeEvent = NegativeEvent(
    sendTime: Int32, receiveTime: Int32,
    senderManager: UInt32, senderObject: UInt32, receiverManager: UInt32, receiverObject: UInt32, id: UInt32)

  datatype NegativeEventMessage = NegativeEventMessage(
    source: UInt32, dest: UInt32, incarnation: UInt32, events: seq<NegativeEvent>, gvtInfo: seq<Byte>)

  /** The count of messages in transit may be negative. */
  datatype GVTMessage = GVTMessage(
    source: UInt32, dest: UInt32, incarnation: UInt32, lastScheduled: Int32, minimum: Int32, inTransit: Int32)

  const TIME_TYPE := Ascii("IntVTimeDataType")
  const EVENT_TYPE := Ascii("NegativeEvent")
  const NEGATIVE_TYPE := Ascii("NegativeEventMessage")
  const GVT_TYPE := Ascii("MatternGVTMessage")

  /** Unsigned fields at the start of a message, and in an event. */
  const HEADER: nat := 3
  const NUMBERS: nat := 5

  // ----- serialize -----

  function TimeField(t: Int32): Field { Instance(TIME_TYPE, [Int(t)]) }

  function EventFields(e: NegativeEvent): seq<Field> {
    [TimeField(e.sendTime), TimeField(e.receiveTime), Unsigned(e.senderManager), Unsigned(e.senderObject),
     Unsigned(e.receiverManager), Unsigned(e.receiverObject), Unsigned(e.id)]
  }

  function EventField(e: NegativeEvent): Field { Instance(EVENT_TYPE, EventFields(e)) }

  function Fields<T>(field: T -> Field, xs: seq<T>): (fs: seq<Field>)
    ensures |fs| == |xs| && forall i :: 0 <= i < |xs| ==> fs[i] == field(xs[i])
  {
    if xs == [] then [] else Fields(field, xs[..|xs| - 1]) + [field(xs[|xs| - 1])]
  }

  function Events(es: seq<NegativeEvent>): (fs: seq<Field>) {
    Fields(EventField, es)
  }

  function Header(source: UInt32, dest: UInt32, incarnation: UInt32): seq<Field> {
    [Unsigned(source), Unsigned(dest), Unsigned(incarnation)]
  }

  function NegativeFields(m: NegativeEventMessage): seq<Field> {
    Header(m.source, m.dest, m.incarnation) + [Unsigned(Size(|m.events|))] + Events(m.events) + [Str(m.gvtInfo)]
  }

  function GVTFields(m: GVTMessage): seq<Field> {
    Header(m.source, m.dest, m.incarnation)
    + [TimeField(m.lastScheduled), TimeField(m.minimum), Unsigned(AsUnsigned(m.inTransit))]
  }

  // ----- deserialize -----

  function GetUnsigned(s: seq<Byte>): Option<(UInt32, seq<Byte>)> {
    match Get(AnUnsigned, s)
    case None => None
    case Some((f, rest)) => if f.Unsigned? then Some((f.uint32, rest)) else None
  }

  function GetInt(s: seq<Byte>): Option<(Int32, seq<Byte>)> {
    match Get(AnInt, s)
    case None => None
    case Some((f, rest)) => if f.Int? then Some((f.int32, rest)) else None
  }

  /** getSerializedInstance: the bytes of a nested object. */
  function GetObject(s: seq<Byte>): Option<(seq<Byte>, seq<Byte>)> {
    match Tagged(SERIALIZED_INSTANCE, s)
    case None => None
    case Some(r) => GetBlob(r)
  }

  /** Fields of an object of the given type: the dynamic_cast after deserialize fails for another type. */
  function Body(dataType: seq<Byte>, s: seq<Byte>): Option<seq<Byte>> {
    match GetStr(s)
    case None => None
    case Some((t, body)) => if t == dataType then Some(body) else None
  }

  function TimeOf(s: seq<Byte>): Option<Int32> {
    match Body(TIME_TYPE, s)
    case None => None
    case Some(body) => match GetInt(body) case None => None case Some((t, _)) => Some(t)
  }

  function GetTime(s: seq<Byte>): Option<(Int32, seq<Byte>)> {
    match GetObject(s)
    case None => None
    case Some((inner, rest)) => match TimeOf(inner) case None => None case Some(t) => Some((t, rest))
  }

  /** Two values, one after the other. */
  function GetPair<A, B>(f: seq<Byte> -> Option<(A, seq<Byte>)>, g: seq<Byte> -> Option<(B, seq<Byte>)>,
                         s: seq<Byte>): Option<((A, B), seq<Byte>)> {
    match f(s)
    case None => None
    case Some((a, r)) => match g(r) case None => None case Some((b, rest)) => Some(((a, b), rest))
  }

  function GetTimes(s: seq<Byte>): Option<((Int32, Int32), seq<Byte>)> {
    GetPair(GetTime, GetTime, s)
  }

  /** `n` values in a row, read one after the other. */
  function GetList<T>(get: seq<Byte> -> Option<(T, seq<Byte>)>, n: nat, s: seq<Byte>): Option<(seq<T>, seq<Byte>)> {
    if n == 0 then Some(([], s))
    else
      match GetList(get, n - 1, s)
      case None => None
      case Some((xs, r)) => match get(r) case None => None case Some((x, rest)) => Some((xs + [x], rest))
  }

  function EventOf(s: seq<Byte>): Option<NegativeEvent> {
    match Body(EVENT_TYPE, s)
    case None => None
    case Some(body) =>
      match GetTimes(body)
      case None => None
      case Some((ts, r)) =>
        match GetList(GetUnsigned, NUMBERS, r)
        case None => None
        case Some((us, _)) =>
          if |us| == NUMBERS then Some(NegativeEvent(ts.0, ts.1, us[0], us[1], us[2], us[3], us[4])) else None
  }

  function GetEvent(s: seq<Byte>): Option<(NegativeEvent, seq<Byte>)> {
    match GetObject(s)
    case None => None
    case Some((inner, rest)) => match EventOf(inner) case None => None case Some(e) => Some((e, rest))
  }

  /** The header and the count; then the events; then the GVT information. What is left is part of the
      result. */
  function GetNegative(s: seq<Byte>): Option<(NegativeEventMessage, seq<Byte>)> {
    match GetList(GetUnsigned, HEADER + 1, s)
    case None => None
    case Some((h, s1)) =>
      if |h| != HEADER + 1 then None else
      match GetList(GetEvent, h[3], s1)
      case None => None
      case Some((es, s2)) =>
        match GetStr(s2)
        case None => None
        case Some((t, rest)) => Some((NegativeEventMessage(h[0], h[1], h[2], es, t), rest))
  }

  /** The count, carried as unsigned, comes back as an int. */
  function GetCount(s: seq<Byte>): Option<(Int32, seq<Byte>)> {
    match GetUnsigned(s) case None => None case Some((n, rest)) => Some((AsInt(n), rest))
  }

  function GetCut(s: seq<Byte>): Option<(((Int32, Int32), Int32), seq<Byte>)> {
    GetPair(GetTimes, GetCount, s)
  }

  function GetGVT(s: seq<Byte>): Option<(GVTMessage, seq<Byte>)> {
    match GetList(GetUnsigned, HEADER, s)
    case None => None
    case Some((h, r)) =>
      if |h| != HEADER then None else
      match GetCut(r)
      case None => None
      case Some((c, rest)) => Some((GVTMessage(h[0], h[1], h[2], c.0.0, c.0.1, c.1), rest))
  }

  function NegativeOf(s: seq<Byte>): Option<NegativeEventMessage> {
    match Body(NEGATIVE_TYPE, s)
    case None => None
    case Some(body) => match GetNegative(body) case None => None case Some((m, _)) => Some(m)
  }

  function GVTOf(s: seq<Byte>): Option<GVTMessage> {
    match Body(GVT_TYPE, s)
    case None => None
    case Some(body) => match GetGVT(body) case None => None case Some((m, _)) => Some(m)
  }

  // ----- layout -----

  lemma Assoc(a: seq<Byte>, b: seq<Byte>, c: seq<Byte>)
    ensures (a + b) + c == a + (b + c)
  {
  }

  lemma {:induction false} AddAllConcat(fs: seq<Field>, gs: seq<Field>)
    ensures AddAll(fs + gs) == AddAll(fs) + AddAll(gs)
  {
    if fs == [] {
      assert fs + gs == gs;
      assert AddAll(fs) + AddAll(gs) == AddAll(gs);
    } else {
      AddAllConcat(fs[1..], gs);
      assert (fs + gs)[1..] == fs[1..] + gs && (fs + gs)[0] == fs[0];
      assert AddAll(fs + gs) == Add(fs[0]) + AddAll(fs[1..] + gs);
      assert AddAll(fs) == Add(fs[0]) + AddAll(fs[1..]);
      Assoc(Add(fs[0]), AddAll(fs[1..]), AddAll(gs));
    }
  }

  lemma AddAllCons(f: Field, fs: seq<Field>)
    ensures AddAll([f] + fs) == Add(f) + AddAll(fs)
  {
    assert ([f] + fs)[1..] == fs;
  }

  lemma AddAllOne(f: Field)
    ensures AddAll([f]) == Add(f)
  {
    AddAllCons(f, []);
    assert [f] + [] == [f];
    assert Add(f) + [] == Add(f);
  }

  // ----- round trips -----

  lemma UnsignedRoundTrip(u: UInt32, rest: seq<Byte>)
    ensures GetUnsigned(Add(Unsigned(u)) + rest) == Some((u, rest)) && |Add(Unsigned(u))| == 8
  {
    RoundTrip(Unsigned(u), rest);
  }

  function Unsigneds(us: seq<UInt32>): (fs: seq<Field>) {
    Fields(NumberField, us)
  }

  lemma AddAllSnoc(fs: seq<Field>, f: Field, rest: seq<Byte>)
    ensures AddAll(fs + [f]) == AddAll(fs) + Add(f) && AddAll(fs + [f]) + rest == AddAll(fs) + (Add(f) + rest)
  {
    AddAllConcat(fs, [f]);
    AddAllOne(f);
    Assoc(AddAll(fs), Add(f), rest);
  }

  lemma ListStep<T>(get: seq<Byte> -> Option<(T, seq<Byte>)>, n: nat, s: seq<Byte>, xs: seq<T>, more: seq<Byte>,
                    x: T, rest: seq<Byte>)
    requires n > 0 && GetList(get, n - 1, s) == Some((xs, more)) && get(more) == Some((x, rest))
    ensures GetList(get, n, s) == Some((xs + [x], rest))
  {
  }

  /** Reading stops for good at the first value that cannot be read. */
  lemma {:induction false} ListFails<T>(get: seq<Byte> -> Option<(T, seq<Byte>)>, i: nat, n: nat, s: seq<Byte>)
    requires i <= n && GetList(get, i, s) == None
    ensures GetList(get, n, s) == None
    decreases n
  {
    if i < n { ListFails(get, i, n - 1, s); }
  }

  /** A list is read back whole if each value is. */
  lemma {:induction false} ListRoundTrip<T>(get: seq<Byte> -> Option<(T, seq<Byte>)>, field: T -> Field, xs: seq<T>,
                                            rest: seq<Byte>)
    requires forall x, r :: get(Add(field(x)) + r) == Some((x, r))
    ensures GetList(get, |xs|, AddAll(Fields(field, xs)) + rest) == Some((xs, rest))
  {
    if xs == [] {
      assert AddAll(Fields(field, xs)) + rest == rest;
    } else {
      var n := |xs| - 1;
      var s, more := AddAll(Fields(field, xs)) + rest, Add(field(xs[n])) + rest;
      assert s == AddAll(Fields(field, xs[..n])) + more by { AddAllSnoc(Fields(field, xs[..n]), field(xs[n]), rest); }
      ListRoundTrip(get, field, xs[..n], more);
      ListStep(get, |xs|, s, xs[..n], more, xs[n], rest);
      assert xs == xs[..n] + [xs[n]];
    }
  }

  function NumberField(u: UInt32): Field { Unsigned(u) }

  lemma UnsignedsRoundTrip(us: seq<UInt32>, rest: seq<Byte>)
    ensures GetList(GetUnsigned, |us|, AddAll(Unsigneds(us)) + rest) == Some((us, rest))
  {
    forall x: UInt32, r ensures GetUnsigned(Add(NumberField(x)) + r) == Some((x, r)) { UnsignedRoundTrip(x, r); }
    ListRoundTrip(GetUnsigned, NumberField, us, rest);
  }

  lemma {:induction false} UnsignedsSize(us: seq<UInt32>)
    ensures |AddAll(Unsigneds(us))| == 8 * |us|
  {
    if us != [] {
      UnsignedsSize(us[..|us| - 1]);
      AddAllSnoc(Unsigneds(us[..|us| - 1]), NumberField(us[|us| - 1]), []);
    }
  }

  /** A nested object comes back as the bytes it was serialized to. */
  lemma ObjectBytes(t: seq<Byte>, fs: seq<Field>, rest: seq<Byte>)
    requires |Serialized(t, fs)| < 0x1_0000_0000
    ensures GetObject(Add(Instance(t, fs)) + rest) == Some((Serialized(t, fs), rest))
  {
    var inner := Serialized(t, fs);
    assert Add(Instance(t, fs)) + rest == Bytes4(SERIALIZED_INSTANCE) + (AddBlob(inner) + rest);
    GetTag(SERIALIZED_INSTANCE, AddBlob(inner) + rest);
    BlobRoundTripIff(inner, rest);
  }

  lemma BodyRoundTrip(t: seq<Byte>, fs: seq<Field>)
    requires |t| + 1 < 0x1_0000_0000
    ensures Body(t, Serialized(t, fs)) == Some(AddAll(fs))
  {
    StrRoundTrip(t, AddAll(fs));
  }

  /** An object of another type is refused. */
  lemma OtherTypeRefused(dataType: seq<Byte>, t: seq<Byte>, fs: seq<Field>)
    requires |t| + 1 < 0x1_0000_0000
    ensures Body(dataType, Serialized(t, fs)).Some? <==> t == dataType
  {
    StrRoundTrip(t, AddAll(fs));
  }

  lemma TimeRoundTrip(t: Int32, rest: seq<Byte>)
    ensures GetTime(Add(TimeField(t)) + rest) == Some((t, rest)) && |Add(TimeField(t))| == 45
  {
    var fs := [Int(t)];
    AddAllOne(Int(t));
    ObjectBytes(TIME_TYPE, fs, rest);
    BodyRoundTrip(TIME_TYPE, fs);
    RoundTrip(Int(t), []);
    assert Add(Int(t)) + [] == Add(Int(t));
  }

  lemma PairSteps<A, B>(f: seq<Byte> -> Option<(A, seq<Byte>)>, g: seq<Byte> -> Option<(B, seq<Byte>)>,
                        s: seq<Byte>, a: A, r: seq<Byte>, b: B, rest: seq<Byte>)
    requires f(s) == Some((a, r)) && g(r) == Some((b, rest))
    ensures GetPair(f, g, s) == Some(((a, b), rest))
  {
  }

  lemma TimesRoundTrip(a: Int32, b: Int32, rest: seq<Byte>)
    ensures GetTimes(Add(TimeField(a)) + (Add(TimeField(b)) + rest)) == Some(((a, b), rest))
  {
    var r := Add(TimeField(b)) + rest;
    TimeRoundTrip(a, r);
    TimeRoundTrip(b, rest);
    PairSteps(GetTime, GetTime, Add(TimeField(a)) + r, a, r, b, rest);
  }

  function EventNumbers(e: NegativeEvent): seq<UInt32> {
    [e.senderManager, e.senderObject, e.receiverManager, e.receiverObject, e.id]
  }

  lemma EventLayout(e: NegativeEvent)
    ensures AddAll(EventFields(e)) ==
            Add(TimeField(e.sendTime)) + (Add(TimeField(e.receiveTime)) + AddAll(Unsigneds(EventNumbers(e))))
  {
    var us := Unsigneds(EventNumbers(e));
    assert EventFields(e) == [TimeField(e.sendTime)] + ([TimeField(e.receiveTime)] + us);
    AddAllCons(TimeField(e.sendTime), [TimeField(e.receiveTime)] + us);
    AddAllCons(TimeField(e.receiveTime), us);
  }

  lemma EventSteps(s: seq<Byte>, body: seq<Byte>, r: seq<Byte>, left: seq<Byte>, e: NegativeEvent)
    requires Body(EVENT_TYPE, s) == Some(body) && GetTimes(body) == Some(((e.sendTime, e.receiveTime), r))
    requires GetList(GetUnsigned, NUMBERS, r) == Some((EventNumbers(e), left))
    ensures EventOf(s) == Some(e)
  {
  }

  lemma EventSize(e: NegativeEvent)
    ensures |Serialized(EVENT_TYPE, EventFields(e))| < 1000
  {
    EventLayout(e);
    TimeRoundTrip(e.sendTime, []);
    TimeRoundTrip(e.receiveTime, []);
    UnsignedsSize(EventNumbers(e));
  }

  lemma EventOfRoundTrip(e: NegativeEvent)
    ensures EventOf(Serialized(EVENT_TYPE, EventFields(e))) == Some(e)
  {
    var s := AddAll(Unsigneds(EventNumbers(e)));
    EventLayout(e);
    UnsignedsRoundTrip(EventNumbers(e), []);
    assert s + [] == s;
    TimesRoundTrip(e.sendTime, e.receiveTime, s);
    BodyRoundTrip(EVENT_TYPE, EventFields(e));
    EventSteps(Serialized(EVENT_TYPE, EventFields(e)), AddAll(EventFields(e)), s, [], e);
  }

  lemma EventRoundTrip(e: NegativeEvent, rest: seq<Byte>)
    ensures GetEvent(Add(EventField(e)) + rest) == Some((e, rest))
  {
    EventSize(e);
    EventOfRoundTrip(e);
    ObjectBytes(EVENT_TYPE, EventFields(e), rest);
  }

  lemma EventsRoundTrip(es: seq<NegativeEvent>, rest: seq<Byte>)
    ensures GetList(GetEvent, |es|, AddAll(Events(es)) + rest) == Some((es, rest))
  {
    forall e: NegativeEvent, r ensures GetEvent(Add(EventField(e)) + r) == Some((e, r)) { EventRoundTrip(e, r); }
    ListRoundTrip(GetEvent, EventField, es, rest);
  }

  lemma NegativeLayout(m: NegativeEventMessage)
    ensures AddAll(NegativeFields(m)) ==
            AddAll(Unsigneds([m.source, m.dest, m.incarnation, Size(|m.events|)]))
            + (AddAll(Events(m.events)) + Add(Str(m.gvtInfo)))
  {
    var h, es, t := Unsigneds([m.source, m.dest, m.incarnation, Size(|m.events|)]), Events(m.events), Str(m.gvtInfo);
    assert NegativeFields(m) == h + es + [t];
    AddAllConcat(h + es, [t]);
    AddAllConcat(h, es);
    AddAllOne(t);
    Assoc(AddAll(h), AddAll(es), Add(t));
  }

  lemma NegativeSteps(s: seq<Byte>, m: NegativeEventMessage, n: UInt32, s1: seq<Byte>, s2: seq<Byte>, rest: seq<Byte>)
    requires GetList(GetUnsigned, HEADER + 1, s) == Some(([m.source, m.dest, m.incarnation, n], s1))
    requires GetList(GetEvent, n, s1) == Some((m.events, s2)) && GetStr(s2) == Some((m.gvtInfo, rest))
    ensures GetNegative(s) == Some((m, rest))
  {
  }

  lemma NegativeHead(m: NegativeEventMessage)
    ensures GetList(GetUnsigned, HEADER + 1, AddAll(NegativeFields(m)))
         == Some(([m.source, m.dest, m.incarnation, Size(|m.events|)], AddAll(Events(m.events)) + Add(Str(m.gvtInfo))))
  {
    NegativeLayout(m);
    UnsignedsRoundTrip([m.source, m.dest, m.incarnation, Size(|m.events|)],
      AddAll(Events(m.events)) + Add(Str(m.gvtInfo)));
  }

  lemma CountedEvents(es: seq<NegativeEvent>, rest: seq<Byte>)
    requires |es| < 0x1_0000_0000
    ensures GetList(GetEvent, Size(|es|), AddAll(Events(es)) + rest) == Some((es, rest))
  {
    assert Size(|es|) == |es|;
    EventsRoundTrip(es, rest);
  }

  lemma LastStr(t: seq<Byte>)
    requires |t| + 1 < 0x1_0000_0000
    ensures GetStr(Add(Str(t))) == Some((t, []))
  {
    StrRoundTrip(t, []);
    assert AddBlob(t + [0]) + [] == AddBlob(t + [0]);
  }

  /** Anti-message lists of any length survive the wire, with the count, every event and the GVT
      information unchanged and every byte consumed. */
  lemma NegativeBodyRoundTrip(m: NegativeEventMessage)
    requires |m.events| < 0x1_0000_0000 && |m.gvtInfo| + 1 < 0x1_0000_0000
    ensures GetNegative(AddAll(NegativeFields(m))) == Some((m, []))
  {
    var t := Add(Str(m.gvtInfo));
    var s, s1, n := AddAll(NegativeFields(m)), AddAll(Events(m.events)) + t, Size(|m.events|);
    assert GetList(GetUnsigned, HEADER + 1, s) == Some(([m.source, m.dest, m.incarnation, n], s1))
           by { NegativeHead(m); }
    assert GetList(GetEvent, n, s1) == Some((m.events, t)) by { CountedEvents(m.events, t); }
    assert GetStr(t) == Some((m.gvtInfo, [])) by { LastStr(m.gvtInfo); }
    NegativeSteps(s, m, n, s1, t, []);
  }

  lemma NegativeRoundTrip(m: NegativeEventMessage)
    requires |m.events| < 0x1_0000_0000 && |m.gvtInfo| + 1 < 0x1_0000_0000
    ensures NegativeOf(Serialized(NEGATIVE_TYPE, NegativeFields(m))) == Some(m)
  {
    BodyRoundTrip(NEGATIVE_TYPE, NegativeFields(m));
    NegativeBodyRoundTrip(m);
  }

  lemma GVTLayout(m: GVTMessage)
    ensures AddAll(GVTFields(m)) ==
            AddAll(Unsigneds([m.source, m.dest, m.incarnation]))
            + (Add(TimeField(m.lastScheduled)) + (Add(TimeField(m.minimum)) + Add(Unsigned(AsUnsigned(m.inTransit)))))
  {
    var h, a, b, n := Unsigneds([m.source, m.dest, m.incarnation]), TimeField(m.lastScheduled), TimeField(m.minimum),
                      Unsigned(AsUnsigned(m.inTransit));
    assert GVTFields(m) == h + [a, b, n];
    AddAllConcat(h, [a, b, n]);
    assert [a, b, n] == [a] + [b, n] && [b, n] == [b] + [n];
    AddAllCons(a, [b, n]);
    AddAllCons(b, [n]);
    AddAllOne(n);
  }

  lemma CountRoundTrip(n: Int32)
    ensures GetCount(Add(Unsigned(AsUnsigned(n)))) == Some((n, []))
  {
    UnsignedRoundTrip(AsUnsigned(n), []);
    assert Add(Unsigned(AsUnsigned(n))) + [] == Add(Unsigned(AsUnsigned(n)));
  }

  lemma CutRoundTrip(a: Int32, b: Int32, n: Int32)
    ensures GetCut(Add(TimeField(a)) + (Add(TimeField(b)) + Add(Unsigned(AsUnsigned(n))))) == Some((((a, b), n), []))
  {
    var r := Add(Unsigned(AsUnsigned(n)));
    TimesRoundTrip(a, b, r);
    CountRoundTrip(n);
    PairSteps(GetTimes, GetCount, Add(TimeField(a)) + (Add(TimeField(b)) + r), (a, b), r, n, []);
  }

  lemma GVTSteps(s: seq<Byte>, m: GVTMessage, r: seq<Byte>, rest: seq<Byte>)
    requires GetList(GetUnsigned, HEADER, s) == Some(([m.source, m.dest, m.incarnation], r))
    requires GetCut(r) == Some((((m.lastScheduled, m.minimum), m.inTransit), rest))
    ensures GetGVT(s) == Some((m, rest))
  {
  }

  lemma GVTBodyRoundTrip(m: GVTMessage)
    ensures GetGVT(AddAll(GVTFields(m))) == Some((m, []))
  {
    var r := Add(TimeField(m.lastScheduled)) + (Add(TimeField(m.minimum)) + Add(Unsigned(AsUnsigned(m.inTransit))));
    GVTLayout(m);
    UnsignedsRoundTrip([m.source, m.dest, m.incarnation], r);
    CutRoundTrip(m.lastScheduled, m.minimum, m.inTransit);
    GVTSteps(AddAll(GVTFields(m)), m, r, []);
  }

  /** A GVT token survives the wire, also with a negative count carried as unsigned. */
  lemma GVTRoundTrip(m: GVTMessage)
    ensures GVTOf(Serialized(GVT_TYPE, GVTFields(m))) == Some(m)
  {
    BodyRoundTrip(GVT_TYPE, GVTFields(m));
    GVTBodyRoundTrip(m);
  }

  // ----- where the numbers are -----

  /** The four bytes at `p` are the number `u`. */
  ghost predicate NumberAt(s: seq<Byte>, p: nat, u: UInt32) {
    p + 4 <= |s| && Value(s[p..p + 4]) == u
  }

  lemma NumberBehind(a: seq<Byte>, s: seq<Byte>, p: nat, u: UInt32)
    requires NumberAt(s, p, u)
    ensures NumberAt(a + s, |a| + p, u)
  {
    assert (a + s)[|a| + p..|a| + p + 4] == s[p..p + 4];
  }

  lemma NumberBefore(s: seq<Byte>, b: seq<Byte>, p: nat, u: UInt32)
    requires NumberAt(s, p, u)
    ensures NumberAt(s + b, p, u)
  {
    assert (s + b)[p..p + 4] == s[p..p + 4];
  }

  lemma {:induction false} UnsignedsAt(us: seq<UInt32>, k: nat)
    requires k < |us|
    ensures NumberAt(AddAll(Unsigneds(us)), 8 * k + 4, us[k])
  {
    var n := |us| - 1;
    var a, b := AddAll(Unsigneds(us[..n])), Add(NumberField(us[n]));
    AddAllSnoc(Unsigneds(us[..n]), NumberField(us[n]), []);
    UnsignedsSize(us[..n]);
    if k < n {
      UnsignedsAt(us[..n], k);
      NumberBefore(a, b, 8 * k + 4, us[k]);
    } else {
      FourBytes(us[n]);
      assert b[4..8] == Bytes4(us[n]);
      NumberBehind(a, b, 4, us[n]);
    }
  }

  lemma TimeAt(t: Int32)
    ensures |Add(TimeField(t))| == 45 && NumberAt(Add(TimeField(t)), 41, AsUnsigned(t))
  {
    var head := TimeEnds(t);
    IntAt(t);
    NumberBehind(head, Add(Int(t)), 4, AsUnsigned(t));
  }

  lemma IntAt(t: Int32)
    ensures |Add(Int(t))| == 8 && NumberAt(Add(Int(t)), 4, AsUnsigned(t))
  {
    FourBytes(AsUnsigned(t));
    assert Add(Int(t))[4..8] == Bytes4(AsUnsigned(t));
  }

  lemma TimeEnds(t: Int32) returns (head: seq<Byte>)
    ensures |head| == 37 && Add(TimeField(t)) == head + Add(Int(t))
  {
    var name, i := AddBlob(TIME_TYPE + [0]), Add(Int(t));
    AddAllOne(Int(t));
    head := Bytes4(SERIALIZED_INSTANCE) + (Bytes4(CHAR_BLOB) + Bytes4(Size(|name + i|)) + name);
    Nest(Bytes4(SERIALIZED_INSTANCE), Bytes4(CHAR_BLOB) + Bytes4(Size(|name + i|)), name, i);
  }

  lemma Nest(a: seq<Byte>, b: seq<Byte>, c: seq<Byte>, d: seq<Byte>)
    ensures a + (b + (c + d)) == (a + (b + c)) + d
  {
  }

  /** An anti-message: sending and receiving time, sender, receiver, event id. */
  lemma EventOffsets(e: NegativeEvent)
    ensures var s := AddAll(EventFields(e));
            && |s| == 130
            && NumberAt(s, 41, AsUnsigned(e.sendTime)) && NumberAt(s, 86, AsUnsigned(e.receiveTime))
            && NumberAt(s, 94, e.senderManager) && NumberAt(s, 102, e.senderObject)
            && NumberAt(s, 110, e.receiverManager) && NumberAt(s, 118, e.receiverObject) && NumberAt(s, 126, e.id)
  {
    var us := EventNumbers(e);
    var a, b, c := Add(TimeField(e.sendTime)), Add(TimeField(e.receiveTime)), AddAll(Unsigneds(us));
    EventLayout(e);
    UnsignedsSize(us);
    TimeAt(e.sendTime);
    TimeAt(e.receiveTime);
    NumberBefore(a, b + c, 41, AsUnsigned(e.sendTime));
    NumberBefore(b, c, 41, AsUnsigned(e.receiveTime));
    NumberBehind(a, b + c, 41, AsUnsigned(e.receiveTime));
    NumbersBehind(a, b, us);
  }

  lemma NumbersBehind(a: seq<Byte>, b: seq<Byte>, us: seq<UInt32>)
    requires |a| == 45 && |b| == 45 && |us| == 5
    ensures var s := a + (b + AddAll(Unsigneds(us)));
            && NumberAt(s, 94, us[0]) && NumberAt(s, 102, us[1]) && NumberAt(s, 110, us[2])
            && NumberAt(s, 118, us[3]) && NumberAt(s, 126, us[4])
  {
    var c := AddAll(Unsigneds(us));
    forall k | 0 <= k < 5 ensures NumberAt(a + (b + c), 90 + (8 * k + 4), us[k]) {
      UnsignedsAt(us, k);
      NumberBehind(b, c, 8 * k + 4, us[k]);
      NumberBehind(a, b + c, 45 + (8 * k + 4), us[k]);
    }
    EventNumbersAt(a + (b + c), us);
  }

  lemma EventNumbersAt(s: seq<Byte>, us: seq<UInt32>)
    requires |us| == 5 && forall k :: 0 <= k < 5 ==> NumberAt(s, 90 + (8 * k + 4), us[k])
    ensures NumberAt(s, 94, us[0]) && NumberAt(s, 102, us[1]) && NumberAt(s, 110, us[2])
    ensures NumberAt(s, 118, us[3]) && NumberAt(s, 126, us[4])
  {
  }

  /** A list of anti-messages starts with the two managers, the message number and the count. */
  lemma NegativeOffsets(m: NegativeEventMessage)
    ensures var s := AddAll(NegativeFields(m));
            NumberAt(s, 4, m.source) && NumberAt(s, 12, m.dest) && NumberAt(s, 20, m.incarnation)
            && NumberAt(s, 28, Size(|m.events|))
  {
    var us := [m.source, m.dest, m.incarnation, Size(|m.events|)];
    var a, b := AddAll(Unsigneds(us)), AddAll(Events(m.events)) + Add(Str(m.gvtInfo));
    NegativeLayout(m);
    forall k | 0 <= k < 4 ensures NumberAt(a + b, 8 * k + 4, us[k]) {
      UnsignedsAt(us, k);
      NumberBefore(a, b, 8 * k + 4, us[k]);
    }
    assert NumberAt(a + b, 8 * 0 + 4, us[0]) && NumberAt(a + b, 8 * 1 + 4, us[1]);
    assert NumberAt(a + b, 8 * 2 + 4, us[2]) && NumberAt(a + b, 8 * 3 + 4, us[3]);
  }

  /** A GVT token: the two managers, the message number, the least clock, the least sending time, the count. */
  lemma GVTOffsets(m: GVTMessage)
    ensures var s := AddAll(GVTFields(m));
            && |s| == 122
            && NumberAt(s, 4, m.source) && NumberAt(s, 12, m.dest) && NumberAt(s, 20, m.incarnation)
            && NumberAt(s, 65, AsUnsigned(m.lastScheduled)) && NumberAt(s, 110, AsUnsigned(m.minimum))
            && NumberAt(s, 118, AsUnsigned(m.inTransit))
  {
    var us := [m.source, m.dest, m.incarnation];
    var h, a, b, c := AddAll(Unsigneds(us)), Add(TimeField(m.lastScheduled)), Add(TimeField(m.minimum)),
                      Add(Unsigned(AsUnsigned(m.inTransit)));
    GVTLayout(m);
    UnsignedsSize(us);
    GVTHead(us, a + (b + c));
    GVTTail(m, h);
  }

  lemma GVTHead(us: seq<UInt32>, b: seq<Byte>)
    requires |us| == 3
    ensures var s := AddAll(Unsigneds(us)) + b;
            NumberAt(s, 4, us[0]) && NumberAt(s, 12, us[1]) && NumberAt(s, 20, us[2])
  {
    var a := AddAll(Unsigneds(us));
    forall k | 0 <= k < 3 ensures NumberAt(a + b, 8 * k + 4, us[k]) {
      UnsignedsAt(us, k);
      NumberBefore(a, b, 8 * k + 4, us[k]);
    }
    assert NumberAt(a + b, 8 * 0 + 4, us[0]) && NumberAt(a + b, 8 * 1 + 4, us[1]) && NumberAt(a + b, 8 * 2 + 4, us[2]);
  }

  lemma GVTTail(m: GVTMessage, h: seq<Byte>)
    requires |h| == 24
    ensures var s := h + (Add(TimeField(m.lastScheduled)) + (Add(TimeField(m.minimum))
                          + Add(Unsigned(AsUnsigned(m.inTransit)))));
            && |s| == 122 && NumberAt(s, 65, AsUnsigned(m.lastScheduled)) && NumberAt(s, 110, AsUnsigned(m.minimum))
            && NumberAt(s, 118, AsUnsigned(m.inTransit))
  {
    var a, b, c := Add(TimeField(m.lastScheduled)), Add(TimeField(m.minimum)), Add(Unsigned(AsUnsigned(m.inTransit)));
    TimeAt(m.lastScheduled);
    TimeAt(m.minimum);
    FourBytes(AsUnsigned(m.inTransit));
    assert c[4..8] == Bytes4(AsUnsigned(m.inTransit));
    NumberBefore(a, b + c, 41, AsUnsigned(m.lastScheduled));
    NumberBehind(h, a + (b + c), 41, AsUnsigned(m.lastScheduled));
    NumberBefore(b, c, 41, AsUnsigned(m.minimum));
    NumberBehind(a, b + c, 41, AsUnsigned(m.minimum));
    NumberBehind(h, a + (b + c), 86, AsUnsigned(m.minimum));
    NumberBehind(b, c, 4, AsUnsigned(m.inTransit));
    NumberBehind(a, b + c, 49, AsUnsigned(m.inTransit));
    NumberBehind(h, a + (b + c), 94, AsUnsigned(m.inTransit));
  }
}
