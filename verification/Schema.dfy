/** The nine message types of wipc.proto, as the tables their generated code unrolls. */
module Schema {
  import opened Wrappers

  datatype MessageType =
    | Message | Screen | Resolution | Frequency | ImageDiff | Touch | Key | Button | Command

  datatype Kind =
    | EnumField(lo: int, hi: int, dflt: int)     // Type_IsValid accepts exactly lo..hi
    | UInt32Field
    | BoolField
    | StringField
    | MessageField(of: MessageType)
    | RepeatedField(of: MessageType)

  datatype FieldDesc = FieldDesc(kind: Kind, required: bool)

  /** Nesting depth below a message type. */
  function Rank(t: MessageType): nat
  {
    match t
    case Message => 2
    case Screen => 1
    case _ => 0
  }

  function KindRank(k: Kind): nat
  {
    match k
    case MessageField(c) => Rank(c) + 1
    case RepeatedField(c) => Rank(c) + 1
    case _ => 0
  }

  /** Field number i + 1 is entry i: every wipc message numbers its fields 1, 2, 3, ... */
  function Fields(t: MessageType): (fs: seq<FieldDesc>)
    ensures 1 <= |fs| <= 6
    ensures forall i :: 0 <= i < |fs| ==> KindRank(fs[i].kind) <= Rank(t)
    ensures forall i :: 0 <= i < |fs| && fs[i].kind.EnumField? ==>
              0 <= fs[i].kind.lo <= fs[i].kind.dflt <= fs[i].kind.hi < 6
  {
    match t
    case Message => [
      FieldDesc(EnumField(1, 5, 1), true),
      FieldDesc(RepeatedField(Touch), false),
      FieldDesc(MessageField(Screen), false),
      FieldDesc(MessageField(Key), false),
      FieldDesc(MessageField(Button), false),
      FieldDesc(MessageField(Command), false)]
    case Screen => [
      FieldDesc(EnumField(1, 3, 1), true),
      FieldDesc(MessageField(Resolution), false),
      FieldDesc(MessageField(Frequency), false),
      FieldDesc(MessageField(ImageDiff), false)]
    case Resolution => [FieldDesc(UInt32Field, true), FieldDesc(UInt32Field, true)]
    case Frequency => [FieldDesc(UInt32Field, true)]
    case ImageDiff => [FieldDesc(BoolField, true)]
    case Touch => [
      FieldDesc(EnumField(0, 2, 2), true),
      FieldDesc(UInt32Field, true),
      FieldDesc(UInt32Field, true),
      FieldDesc(BoolField, true),
      FieldDesc(BoolField, true)]
    case Key => [FieldDesc(EnumField(0, 1, 0), true), FieldDesc(StringField, false)]
    case Button => [FieldDesc(EnumField(0, 2, 0), true), FieldDesc(UInt32Field, true)]
    case Command => [FieldDesc(EnumField(0, 2, 0), true), FieldDesc(StringField, false)]
  }

  /** The kind of field number n, if t declares it. */
  function KindOf(t: MessageType, n: nat): (k: Option<Kind>)
    ensures k.Some? ==> KindRank(k.value) <= Rank(t) && 1 <= n <= |Fields(t)|
    ensures k.Some? && k.value.EnumField? ==> 0 <= k.value.lo <= k.value.dflt <= k.value.hi < 6
  {
    if 1 <= n <= |Fields(t)| then Some(Fields(t)[n - 1].kind) else None
  }

  /** VARINT for enums, uint32 and bool; LENGTH_DELIMITED for the rest. */
  function WireTypeFor(k: Kind): (w: nat)
    ensures w == 0 || w == 2
  {
    if k.EnumField? || k.UInt32Field? || k.BoolField? then 0 else 2
  }

  predicate IsSubMessage(t: MessageType, n: nat)
  {
    var k := KindOf(t, n);
    k.Some? && (k.value.MessageField? || k.value.RepeatedField?)
  }

  /** The numbers whose payload is parsed as a sub-message rather than read as a string. */
  function SubMessageNumbers(t: MessageType): set<nat>
  {
    set n: nat | 1 <= n <= |Fields(t)| && IsSubMessage(t, n)
  }
}
