/**
 * How much of the traffic is logged at each layer. The three levels of each
 * layer are ordered: every predicate that holds at a lower level also holds
 * at every higher one.
 */
module Decode {

  /** What is logged of application PDUs. */
  datatype AppDecodeLevel = AppNothing | FunctionCode | DataHeaders | DataValues {
    /** The position of the level in the declaration order. */
    function Rank(): (n: nat)
      ensures n <= 3
    {
      match this
      case AppNothing => 0
      case FunctionCode => 1
      case DataHeaders => 2
      case DataValues => 3
    }

    /** `header`: anything but `Nothing` logs the function code. */
    predicate Header() {
      match this
      case AppNothing => false
      case FunctionCode => true
      case DataHeaders => true
      case DataValues => true
    }

    /** `enabled`, the same as `header`. */
    predicate Enabled() { Header() }

    predicate DataHeadersEnabled() {
      match this
      case AppNothing => false
      case FunctionCode => false
      case DataHeaders => true
      case DataValues => true
    }

    predicate DataValuesEnabled() {
      match this
      case AppNothing => false
      case FunctionCode => false
      case DataHeaders => false
      case DataValues => true
    }
  }

  /** What is logged of frames. */
  datatype FrameDecodeLevel = FrameNothing | Header | Payload {
    function Rank(): (n: nat)
      ensures n <= 2
    {
      match this
      case FrameNothing => 0
      case Header => 1
      case Payload => 2
    }

    predicate HeaderEnabled() {
      match this
      case FrameNothing => false
      case Header => true
      case Payload => true
    }

    /** `enabled`, the same as `header_enabled`. */
    predicate Enabled() { HeaderEnabled() }

    predicate PayloadEnabled() {
      match this
      case FrameNothing => false
      case Header => false
      case Payload => true
    }
  }

  /** What is logged of the raw bytes. */
  datatype PhysDecodeLevel = PhysNothing | Length | Data {
    function Rank(): (n: nat)
      ensures n <= 2
    {
      match this
      case PhysNothing => 0
      case Length => 1
      case Data => 2
    }

    predicate LengthEnabled() {
      match this
      case PhysNothing => false
      case Length => true
      case Data => true
    }

    /** `enabled`, the same as `length_enabled`. */
    predicate Enabled() { LengthEnabled() }

    predicate DataEnabled() {
      match this
      case PhysNothing => false
      case Length => false
      case Data => true
    }
  }

  /** One level per layer. */
  datatype DecodeLevel = DecodeLevel(app: AppDecodeLevel, frame: FrameDecodeLevel, physical: PhysDecodeLevel) {
    /** `application`: the same levels with the application level replaced. */
    function Application(level: AppDecodeLevel): (r: DecodeLevel)
      ensures r.app == level && r.frame == frame && r.physical == physical
    {
      this.(app := level)
    }

    /** `frame`: the same levels with the frame level replaced. */
    function WithFrame(level: FrameDecodeLevel): (r: DecodeLevel)
      ensures r.app == app && r.frame == level && r.physical == physical
    {
      this.(frame := level)
    }

    /** `physical`: the same levels with the physical level replaced. */
    function Physical(level: PhysDecodeLevel): (r: DecodeLevel)
      ensures r.app == app && r.frame == frame && r.physical == level
    {
      this.(physical := level)
    }
  }

  /** `DecodeLevel::default` and `nothing`: every layer at its lowest level. */
  function Nothing(): (r: DecodeLevel)
    ensures r.app.Rank() == 0 && r.frame.Rank() == 0 && r.physical.Rank() == 0
    ensures !r.app.Enabled() && !r.frame.Enabled() && !r.physical.Enabled()
  {
    DecodeLevel(AppNothing, FrameNothing, PhysNothing)
  }

  /** `From<AppDecodeLevel>`: the application level given, the others at their lowest. */
  function FromApp(level: AppDecodeLevel): (r: DecodeLevel)
    ensures r.app == level && r == Nothing().Application(level)
  {
    DecodeLevel(level, FrameNothing, PhysNothing)
  }

  /** Each predicate holds from one level upwards. */
  lemma AppThresholds(level: AppDecodeLevel)
    ensures level.Enabled() <==> level.Rank() >= 1
    ensures level.DataHeadersEnabled() <==> level.Rank() >= 2
    ensures level.DataValuesEnabled() <==> level.Rank() >= 3
  {
  }

  lemma FrameThresholds(level: FrameDecodeLevel)
    ensures level.Enabled() <==> level.Rank() >= 1
    ensures level.PayloadEnabled() <==> level.Rank() >= 2
  {
  }

  lemma PhysThresholds(level: PhysDecodeLevel)
    ensures level.Enabled() <==> level.Rank() >= 1
    ensures level.DataEnabled() <==> level.Rank() >= 2
  {
  }

  /** Raising a level never switches a predicate off. */
  lemma AppMonotone(a: AppDecodeLevel, b: AppDecodeLevel)
    requires a.Rank() <= b.Rank()
    ensures a.Enabled() ==> b.Enabled()
    ensures a.DataHeadersEnabled() ==> b.DataHeadersEnabled()
    ensures a.DataValuesEnabled() ==> b.DataValuesEnabled()
  {
    AppThresholds(a);
    AppThresholds(b);
  }

  lemma FrameMonotone(a: FrameDecodeLevel, b: FrameDecodeLevel)
    requires a.Rank() <= b.Rank()
    ensures a.Enabled() ==> b.Enabled()
    ensures a.PayloadEnabled() ==> b.PayloadEnabled()
  {
    FrameThresholds(a);
    FrameThresholds(b);
  }

  lemma PhysMonotone(a: PhysDecodeLevel, b: PhysDecodeLevel)
    requires a.Rank() <= b.Rank()
    ensures a.Enabled() ==> b.Enabled()
    ensures a.DataEnabled() ==> b.DataEnabled()
  {
    PhysThresholds(a);
    PhysThresholds(b);
  }

  /** The builders commute: setting two different layers in either order gives the same levels. */
  lemma BuildersCommute(d: DecodeLevel, a: AppDecodeLevel, f: FrameDecodeLevel, p: PhysDecodeLevel)
    ensures d.Application(a).WithFrame(f) == d.WithFrame(f).Application(a)
    ensures d.Application(a).Physical(p) == d.Physical(p).Application(a)
    ensures d.Application(a).WithFrame(f).Physical(p) == DecodeLevel(a, f, p)
  {
  }
}
