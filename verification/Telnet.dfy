/** The telnet server's filter: takes commands and negotiations out of the input, in
    place, and leaves the data. */
module Telnet {
  import opened Bytes

  const SE: byte := 240
  const SB: byte := 250
  const WILL: byte := 251
  const WONT: byte := 252
  const DO: byte := 253
  const DONT: byte := 254
  const IAC: byte := 255
  const OPTDATA_SIZE := 256

  datatype Phase = Normal | AfterIac | Option | SubOption | OptionData | AfterOptionIac

  datatype State = State(phase: Phase, code: byte, optdata: seq<byte>)

  /** What the filter passes on besides data: a negotiation, or a subnegotiation. */
  datatype Event = Negotiated(code: byte, option: byte) | Subnegotiated(option: byte, data: seq<byte>)

  datatype Result = Result(state: State, data: seq<byte>, events: seq<Event>)

  predicate IsNegotiation(c: byte) { c == WILL || c == WONT || c == DO || c == DONT }

  /** What one byte does. */
  function Step(s: State, c: byte): Result {
    match s.phase
    case Normal =>
      if c == IAC then Result(s.(phase := AfterIac), [], []) else Result(s, [c], [])
    case AfterIac =>
      if c == IAC then Result(s.(phase := Normal), [c], [])
      else if IsNegotiation(c) then Result(s.(phase := Option, code := c), [], [])
      else if c == SB then Result(s.(phase := SubOption), [], [])
      else Result(s.(phase := Normal), [], [])
    case Option =>
      Result(s.(phase := Normal), [], [Negotiated(s.code, c)])
    case SubOption =>
      Result(State(OptionData, c, []), [], [])
    case OptionData =>
      if c == IAC then Result(s.(phase := AfterOptionIac), [], [])
      else if |s.optdata| < OPTDATA_SIZE then Result(s.(optdata := s.optdata + [c]), [], [])
      else Result(s, [], [])
    case AfterOptionIac =>
      Result(s.(phase := Normal), [], if c == SE then [Subnegotiated(s.code, s.optdata)] else [])
  }

  function Run(s: State, input: seq<byte>): Result
    decreases |input|
  {
    if input == [] then Result(s, [], [])
    else
      var one := Step(s, input[0]);
      var rest := Run(one.state, input[1..]);
      Result(rest.state, one.data + rest.data, one.events + rest.events)
  }

  function Then(a: Result, b: Result): Result { Result(b.state, a.data + b.data, a.events + b.events) }

  /** Where the input is cut into chunks makes no difference. */
  lemma {:induction false} ChunksJoin(s: State, a: seq<byte>, b: seq<byte>)
    ensures Run(s, a + b) == Then(Run(s, a), Run(Run(s, a).state, b))
    decreases |a|
  {
    if a == [] {
      assert a + b == b;
    } else {
      var one := Step(s, a[0]);
      assert (a + b)[1..] == a[1..] + b;
      ChunksJoin(one.state, a[1..], b);
      var x, y := Run(one.state, a[1..]), Run(Run(s, a).state, b);
      Assoc(one.data, x.data, y.data);
      Assoc(one.events, x.events, y.events);
    }
  }

  lemma RunOne(s: State, c: byte)
    ensures Run(s, [c]) == Step(s, c)
  {
    var one := Step(s, c);
    assert [c][1..] == [] && one.data + [] == one.data && one.events + [] == one.events;
  }

  // ---------- the filter ----------

  /** Nothing has changed in front of start and from end on. */
  ghost predicate SameOutside(before: seq<byte>, after: seq<byte>, start: nat, end: nat) {
    |after| == |before| && start <= end <= |before| && after[..start] == before[..start] && after[end..] == before[end..]
  }

  class TermState {
    var phase: Phase
    var code: byte
    var optdata: seq<byte>
    var events: seq<Event>

    constructor ()
      ensures Now() == State(Normal, 0, []) && events == []
    {
      phase, code, optdata, events := Normal, 0, [], [];
    }

    function Now(): State
      reads this
    {
      State(phase, code, optdata)
    }

    /** The input up to p has been filtered; its data is between start and q, and the
        rest of the input is still in place. */
    ghost predicate Midway(buffer: array<byte>, start: nat, q: nat, p: nat, end: nat, s0: State, ev0: seq<Event>, input: seq<byte>)
      reads this, buffer
    {
      && start <= q <= p <= end <= buffer.Length && |input| == end - start
      && FilteredSoFar(s0, ev0, input[..p - start], Now(), buffer[start..q], events)
      && buffer[p..end] == input[p - start..]
    }

    /** Filters the byte at p. */
    method Consume(buffer: array<byte>, start: nat, q: nat, p: nat, end: nat,
                   ghost s0: State, ghost ev0: seq<Event>, ghost input: seq<byte>)
      returns (next: nat)
      requires Midway(buffer, start, q, p, end, s0, ev0, input) && p < end
      modifies this, buffer
      ensures Midway(buffer, start, next, p + 1, end, s0, ev0, input)
      ensures SameOutside(old(buffer[..]), buffer[..], start, end)
    {
      ghost var n, s, ev, out := p - start, Now(), events, buffer[start..q];
      var c := buffer[p];
      assert c == buffer[p..end][0] == input[n];
      assert buffer[p + 1..end] == buffer[p..end][1..] == input[n + 1..];
      FilteredNext(s0, ev0, input, n, s, out, ev);
      var keep := Take(c);
      next := q;
      if keep {
        buffer[q] := c;
        next := q + 1;
        assert buffer[start..next] == out + [c];
      } else {
        assert out + [] == out;
      }
    }

    /** Filters the bytes between start and end in place; data moves to the front of
        them. The place that is written never passes the place that is read. */
    method Parse(buffer: array<byte>, start: nat, end: nat) returns (q: nat)
      requires start <= end <= buffer.Length
      modifies this, buffer
      ensures start <= q <= end
      ensures FilteredSoFar(old(Now()), old(events), old(buffer[start..end]), Now(), buffer[start..q], events)
      ensures SameOutside(old(buffer[..]), buffer[..], start, end)
    {
      var p := start;
      q := p;
      ghost var before, input, s0, ev0 := buffer[..], buffer[start..end], Now(), events;
      MidwayStart(buffer, start, end);
      while p < end
        invariant Midway(buffer, start, q, p, end, s0, ev0, input)
        invariant SameOutside(before, buffer[..], start, end)
      {
        q := Consume(buffer, start, q, p, end, s0, ev0, input);
        p := p + 1;
      }
      MidwayEnd(buffer, start, q, end, s0, ev0, input);
    }

    lemma MidwayStart(buffer: array<byte>, start: nat, end: nat)
      requires start <= end <= buffer.Length
      ensures Midway(buffer, start, start, start, end, Now(), events, buffer[start..end])
    {
      var input := buffer[start..end];
      assert input[..0] == [] && buffer[start..start] == [] && events + [] == events;
      assert input[0..] == input;
    }

    lemma MidwayEnd(buffer: array<byte>, start: nat, q: nat, end: nat, s0: State, ev0: seq<Event>, input: seq<byte>)
      requires Midway(buffer, start, q, end, end, s0, ev0, input)
      ensures start <= q <= end && FilteredSoFar(s0, ev0, input, Now(), buffer[start..q], events)
    {
      assert input[..end - start] == input;
    }

    /** Takes in one byte; says whether it is data. */
    method Take(c: byte) returns (keep: bool)
      modifies this
      ensures var r := Step(old(Now()), c);
              Now() == r.state && events == old(events) + r.events && r.data == if keep then [c] else []
    {
      keep := false;
      match phase {
        case Normal =>
          if c == IAC {
            phase := AfterIac;
          } else {
            keep := true;
          }
        case AfterIac =>
          if c == IAC {
            keep := true;
            phase := Normal;
          } else if c == WILL || c == WONT || c == DO || c == DONT {
            code := c;
            phase := Option;
          } else if c == SB {
            phase := SubOption;
          } else {
            phase := Normal;
          }
        case Option =>
          events := events + [Negotiated(code, c)];
          phase := Normal;
        case SubOption =>
          code := c;
          optdata := [];
          phase := OptionData;
        case OptionData =>
          if c == IAC {
            phase := AfterOptionIac;
          } else if |optdata| < OPTDATA_SIZE {
            optdata := optdata + [c];
          }
        case AfterOptionIac =>
          if c == SE {
            events := events + [Subnegotiated(code, optdata)];
          }
          phase := Normal;
      }
    }
  }

  /** Filtering this input, from a state and with the events so far, gives this state,
      this data and these events. */
  ghost predicate FilteredSoFar(s0: State, ev0: seq<Event>, input: seq<byte>, s: State, out: seq<byte>, ev: seq<Event>) {
    Then(Result(s0, [], ev0), Run(s0, input)) == Result(s, out, ev)
  }

  lemma FilteredNext(s0: State, ev0: seq<Event>, input: seq<byte>, n: nat, s: State, out: seq<byte>, ev: seq<Event>)
    requires n < |input| && FilteredSoFar(s0, ev0, input[..n], s, out, ev)
    ensures var r := Step(s, input[n]);
            FilteredSoFar(s0, ev0, input[..n + 1], r.state, out + r.data, ev + r.events)
  {
    var r := Step(s, input[n]);
    assert input[..n + 1] == input[..n] + [input[n]];
    ChunksJoin(s0, input[..n], [input[n]]);
    RunOne(s, input[n]);
    var x := Run(s0, input[..n]);
    Assoc(ev0, x.events, r.events);
    assert [] + x.data == x.data;
  }

  // ---------- what a client sends ----------

  datatype Item =
    | Data(b: byte)
    | Command(c: byte)
    | Negotiation(code: byte, option: byte)
    | Subnegotiation(option: byte, data: seq<byte>)

  predicate Sendable(i: Item) {
    match i
    case Data(_) => true
    case Command(c) => c != IAC && c != SB && !IsNegotiation(c)
    case Negotiation(code, _) => IsNegotiation(code)
    case Subnegotiation(_, _) => true
  }

  /** Every byte 255 is doubled. */
  function Escaped(s: seq<byte>): seq<byte> {
    if s == [] then [] else (if s[0] == IAC then [IAC, IAC] else [s[0]]) + Escaped(s[1..])
  }

  function Sent(i: Item): seq<byte> {
    match i
    case Data(b) => Escaped([b])
    case Command(c) => [IAC, c]
    case Negotiation(code, option) => [IAC, code, option]
    case Subnegotiation(option, data) => [IAC, SB, option] + Escaped(data) + [IAC, SE]
  }

  function SentAll(items: seq<Item>): seq<byte> {
    if items == [] then [] else Sent(items[0]) + SentAll(items[1..])
  }

  /** What follows the first byte 255. */
  function Leak(s: seq<byte>): seq<byte> {
    if s == [] then [] else if s[0] == IAC then s[1..] else Leak(s[1..])
  }

  /** As much of option data as is kept. */
  function Shorter(s: seq<byte>): seq<byte> { s[..if |s| < OPTDATA_SIZE then |s| else OPTDATA_SIZE] }

  /** What the filter makes of an item: a subnegotiation whose data has a byte 255 is
      lost, and the data behind that byte is taken for input. */
  function Seen(i: Item): (seq<byte>, seq<Event>) {
    match i
    case Data(b) => ([b], [])
    case Command(_) => ([], [])
    case Negotiation(code, option) => ([], [Negotiated(code, option)])
    case Subnegotiation(option, data) =>
      (Leak(data), if IAC in data then [] else [Subnegotiated(option, Shorter(data))])
  }

  function SeenData(items: seq<Item>): seq<byte> {
    if items == [] then [] else Seen(items[0]).0 + SeenData(items[1..])
  }

  function SeenEvents(items: seq<Item>): seq<Event> {
    if items == [] then [] else Seen(items[0]).1 + SeenEvents(items[1..])
  }

  /** Ready for the next item. */
  predicate Idle(s: State) { s.phase == Normal }

  /** Data that was escaped comes out as it was. */
  lemma {:induction false} DataPasses(s: State, d: seq<byte>)
    requires Idle(s)
    ensures Run(s, Escaped(d)) == Result(s, d, [])
    decreases |d|
  {
    if d != [] {
      var head := if d[0] == IAC then [IAC, IAC] else [d[0]];
      ChunksJoin(s, head, Escaped(d[1..]));
      EscapedByte(s, d[0]);
      DataPasses(s, d[1..]);
      assert [d[0]] + d[1..] == d;
    }
  }

  lemma EscapedByte(s: State, b: byte)
    requires Idle(s)
    ensures Run(s, if b == IAC then [IAC, IAC] else [b]) == Result(s, [b], [])
  {
    if b == IAC {
      RunTwo(s, IAC, IAC);
    } else {
      RunOne(s, b);
    }
  }

  lemma RunTwo(s: State, b: byte, c: byte)
    ensures Run(s, [b, c]) == Then(Step(s, b), Step(Step(s, b).state, c))
  {
    assert [b, c] == [b] + [c];
    ChunksJoin(s, [b], [c]);
    RunOne(s, b);
    RunOne(Step(s, b).state, c);
  }

  lemma RunThree(s: State, b: byte, c: byte, d: byte)
    ensures Run(s, [b, c, d]) == Then(Then(Step(s, b), Step(Step(s, b).state, c)), Step(Step(Step(s, b).state, c).state, d))
  {
    assert [b, c, d] == [b, c] + [d];
    ChunksJoin(s, [b, c], [d]);
    RunTwo(s, b, c);
    RunOne(Run(s, [b, c]).state, d);
  }

  /** The data of a subnegotiation, from where some of it has been taken in. */
  lemma {:induction false} OptionPasses(s: State, d: seq<byte>)
    requires s.phase == OptionData && |s.optdata| <= OPTDATA_SIZE
    ensures var r := Run(s, Escaped(d));
            if IAC in d then Idle(r.state) && r.data == Leak(d) && r.events == []
            else r == Result(s.(optdata := Shorter(s.optdata + d)), [], [])
    decreases |d|
  {
    if d == [] {
      assert s.optdata + [] == s.optdata;
    } else if d[0] == IAC {
      ChunksJoin(s, [IAC, IAC], Escaped(d[1..]));
      RunTwo(s, IAC, IAC);
      DataPasses(Run(s, [IAC, IAC]).state, d[1..]);
    } else {
      ChunksJoin(s, [d[0]], Escaped(d[1..]));
      RunOne(s, d[0]);
      var t := Step(s, d[0]).state;
      OptionPasses(t, d[1..]);
      if |s.optdata| < OPTDATA_SIZE {
        assert s.optdata + [d[0]] + d[1..] == s.optdata + d;
      } else {
        assert Shorter(s.optdata + d) == s.optdata == Shorter(s.optdata + d[1..]);
      }
    }
  }

  lemma ItemPasses(s: State, i: Item)
    requires Idle(s) && Sendable(i)
    ensures var r := Run(s, Sent(i)); Idle(r.state) && (r.data, r.events) == Seen(i)
  {
    match i
    case Data(b) => DataPasses(s, [b]);
    case Command(c) => RunTwo(s, IAC, c);
    case Negotiation(code, option) =>
      RunThree(s, IAC, code, option);
      assert Run(s, Sent(i)).events == [Negotiated(code, option)];
    case Subnegotiation(option, data) => SubnegotiationPasses(s, option, data);
  }

  lemma {:induction false} LeakNone(d: seq<byte>)
    requires IAC !in d
    ensures Leak(d) == []
  {
    if d != [] {
      LeakNone(d[1..]);
    }
  }

  lemma SubnegotiationStarts(s: State, option: byte)
    requires Idle(s)
    ensures Run(s, [IAC, SB, option]) == Result(State(OptionData, option, []), [], [])
  {
    RunThree(s, IAC, SB, option);
  }

  lemma SubnegotiationEnds(s: State)
    requires s.phase == Normal || s.phase == OptionData
    ensures Run(s, [IAC, SE]) == Result(s.(phase := Normal), [], if s.phase == Normal then [] else [Subnegotiated(s.code, s.optdata)])
  {
    RunTwo(s, IAC, SE);
  }

  lemma SubnegotiationPasses(s: State, option: byte, data: seq<byte>)
    requires Idle(s)
    ensures var i := Subnegotiation(option, data);
            var r := Run(s, Sent(i)); Idle(r.state) && (r.data, r.events) == Seen(i)
  {
    var head, tail, t := [IAC, SB, option], [IAC, SE], State(OptionData, option, []);
    ChunksJoin(s, head + Escaped(data), tail);
    ChunksJoin(s, head, Escaped(data));
    SubnegotiationStarts(s, option);
    OptionPasses(t, data);
    SubnegotiationEnds(Run(t, Escaped(data)).state);
    assert [] + data == data;
    var r := Run(s, Sent(Subnegotiation(option, data)));
    if IAC in data {
      assert r.data == Leak(data) && r.events == [];
    } else {
      LeakNone(data);
      assert r.data == [] && r.events == [Subnegotiated(option, Shorter(data))];
    }
  }

  /** For any items a client sends, the filter's output is known exactly. */
  lemma {:induction false} FilterSees(s: State, items: seq<Item>)
    requires Idle(s) && forall i :: 0 <= i < |items| ==> Sendable(items[i])
    ensures var r := Run(s, SentAll(items));
            Idle(r.state) && r.data == SeenData(items) && r.events == SeenEvents(items)
    decreases |items|
  {
    if items != [] {
      ChunksJoin(s, Sent(items[0]), SentAll(items[1..]));
      ItemPasses(s, items[0]);
      FilterSees(Run(s, Sent(items[0])).state, items[1..]);
    }
  }

  /** Input between items, byte by byte: a byte below 255 is data, and so is 255 when it
      is doubled; 255 and a byte below 250 are a command, and 255 and one from 251 to 254
      start a negotiation. */
  lemma FilterBytes(s: State, b: byte, c: byte)
    requires s.phase.Normal?
    ensures b < 255 ==> Run(s, [b]) == Result(s, [b], [])
    ensures Run(s, [255, 255]) == Result(s, [255], [])
    ensures b < 250 ==> Run(s, [255, b]) == Result(s, [], [])
    ensures 251 <= b <= 254 ==> Run(s, [255, b, c]) == Result(s.(code := b), [], [Negotiated(b, c)])
  {
    RunOne(s, b);
    RunTwo(s, 255, 255);
    RunTwo(s, 255, b);
    if 251 <= b <= 254 {
      RunThree(s, 255, b, c);
    }
  }

  /** A subnegotiation stands between 255 250 and 255 240; 256 bytes of it are kept. */
  lemma SubnegotiationBytes(s: State, option: byte, data: seq<byte>)
    requires s.phase.Normal? && 255 !in data
    ensures var kept := if |data| <= 256 then data else data[..256];
            Run(s, [255, 250, option] + data + [255, 240])
            == Result(State(Normal, option, kept), [], [Subnegotiated(option, kept)])
  {
    var kept := if |data| <= 256 then data else data[..256];
    NothingDoubled(data);
    assert Shorter(data) == kept by {
      assert data[..|data|] == data;
    }
    SubnegotiationKept(s, option, data, [255, 250, option], [255, 240]);
  }

  lemma SubnegotiationKept(s: State, option: byte, data: seq<byte>, head: seq<byte>, tail: seq<byte>)
    requires Idle(s) && IAC !in data && Escaped(data) == data && head == [IAC, SB, option] && tail == [IAC, SE]
    ensures Run(s, head + data + tail)
         == Result(State(Normal, option, Shorter(data)), [], [Subnegotiated(option, Shorter(data))])
  {
    var t := State(OptionData, option, []);
    ChunksJoin(s, head + data, tail);
    ChunksJoin(s, head, data);
    SubnegotiationStarts(s, option);
    OptionPasses(t, data);
    assert [] + data == data;
    var u := State(OptionData, option, Shorter(data));
    assert Run(t, data) == Result(u, [], []);
    SubnegotiationEnds(u);
  }

  lemma {:induction false} NothingDoubled(data: seq<byte>)
    requires 255 !in data
    ensures Escaped(data) == data
  {
    if data != [] {
      assert data[0] in data;
      NothingDoubled(data[1..]);
    }
  }

  /** The data that was sent. */
  function DataBytes(items: seq<Item>): seq<byte> {
    if items == [] then [] else (if items[0].Data? then [items[0].b] else []) + DataBytes(items[1..])
  }

  /** No byte follows the first byte 255 of subnegotiation data. */
  predicate NoLeak(items: seq<Item>) {
    forall i :: 0 <= i < |items| && items[i].Subnegotiation? ==> Leak(items[i].data) == []
  }

  lemma {:induction false} SeenLength(items: seq<Item>)
    ensures |SeenData(items)| >= |DataBytes(items)|
    ensures |SeenData(items)| == |DataBytes(items)| ==> NoLeak(items)
    ensures NoLeak(items) ==> SeenData(items) == DataBytes(items)
  {
    if items != [] {
      SeenLength(items[1..]);
      assert NoLeak(items) ==> NoLeak(items[1..]) by {
        if NoLeak(items) {
          forall i | 0 <= i < |items[1..]| && items[1..][i].Subnegotiation? ensures Leak(items[1..][i].data) == [] {
            assert items[i + 1] == items[1..][i];
          }
        }
      }
      if NoLeak(items[1..]) && (items[0].Subnegotiation? ==> Leak(items[0].data) == []) {
        forall i | 0 <= i < |items| && items[i].Subnegotiation? ensures Leak(items[i].data) == [] {
          if i > 0 {
            assert items[i] == items[1..][i - 1];
          }
        }
      }
    }
  }

  /** Filtering leaves exactly the data that was sent when, and only when, no
      subnegotiation has a byte after a byte 255 in its data. */
  lemma FilterInvertsIffNoLeak(s: State, items: seq<Item>)
    requires Idle(s) && forall i :: 0 <= i < |items| ==> Sendable(items[i])
    ensures Run(s, SentAll(items)).data == DataBytes(items) <==> NoLeak(items)
  {
    FilterSees(s, items);
    SeenLength(items);
  }

  /** A subnegotiation whose data is a byte 255 and then the letter A: the letter comes
      out as input, although no data was sent. */
  lemma LeakedLetter(s: State)
    requires Idle(s)
    ensures var items := [Subnegotiation(24, [IAC, 65])];
            DataBytes(items) == [] && Run(s, SentAll(items)).data == [65]
  {
    var item := Subnegotiation(24, [IAC, 65]);
    assert [item][1..] == [];
    FilterSees(s, [item]);
    assert [IAC, 65][1..] == [65];
    assert SeenData([item]) == Leak([IAC, 65]) + [];
  }
}
