/** Parsing a result: measure, allocate, build; and which messages make the measuring pass look too far. */
module ApiParser {
  import opened ApiFormat
  import opened ApiFormatFacts
  import opened ApiArena
  import opened ApiSizer
  import opened ApiBuilder

  datatype Reply = Result(p: Pointer, cells: Arena, top: nat, retlen: nat) | NullResult | OverRead

  /** What parsing a message gives, in terms of the reference decoder. */
  ghost predicate IsResult(data: octets, r: Reply) {
    match Parse(data, 0, 0)
    case Parsed(t, _, _) =>
      && r.Result? && Laid(r.cells, r.top) && Represents(r.cells, r.p, Eval(t, []).0)
      && r.top <= r.retlen == Room(t) && (r.top == r.retlen <==> StringKeys(t))
    case Refused => r == NullResult
    case PastEnd => r == OverRead
  }

  /** parse_result. `OverRead` stands for looking at a byte behind the message, after which nothing is known. */
  method ParseResult(data: octets) returns (r: Reply)
    ensures IsResult(data, r)
  {
    hide Parse, Room, Used, Laid, Represents, Eval;
    var sizer := new Sizer(data);
    var retlen := sizer.CalcRetLen();
    match retlen {
      case NotSized =>
        return NullResult;
      case LeftMessage =>
        return OverRead;
      case Sized(n) =>
        ghost var o := Parse(data, 0, 0);
        ParsedIsPaired(data, 0, 0);
        UsedIsRoom(o.v);
        var builder := new Builder(data, n, sizer.strcnt);
        var p := builder.DoParse(o.v, o.next, o.strings);
        return Result(p, builder.cells, builder.top, n);
    }
  }

  /** The measuring pass leaves only a message that ends in the tag of an array or a hash. */
  lemma {:induction false} PastEndOnlyAfterContainer(d: octets, pos: nat, strings: nat)
    requires Parse(d, pos, strings) == PastEnd
    ensures d != [] && d[|d| - 1] in {RPARAM_ARRAY, RPARAM_HASH}
    decreases |d| - pos, 0
  {
    if d[pos] == RPARAM_ARRAY {
      ItemsPastEnd(d, pos + 1, strings, false, true);
    } else {
      assert d[pos] == RPARAM_HASH;
      ItemsPastEnd(d, pos + 1, strings, true, true);
    }
  }

  lemma {:induction false} ItemsPastEnd(d: octets, pos: nat, strings: nat, hash: bool, first: bool)
    requires ParseItems(d, pos, strings, hash, first) == PastEnd && pos > 0
    requires first ==> pos <= |d| && d[pos - 1] in {RPARAM_ARRAY, RPARAM_HASH}
    ensures d != [] && d[|d| - 1] in {RPARAM_ARRAY, RPARAM_HASH}
    decreases |d| - pos, 1
  {
    if pos < |d| {
      var o := Parse(d, pos, strings);
      if o == PastEnd {
        PastEndOnlyAfterContainer(d, pos, strings);
      } else if hash && Parse(d, o.next, o.strings) == PastEnd {
        PastEndOnlyAfterContainer(d, o.next, o.strings);
      } else {
        var item := ParseItem(d, pos, strings, hash);
        ItemsPastEnd(d, item.next, item.strings, hash, false);
      }
    }
  }

  /** An array tag and nothing else makes the measuring pass look behind the message. */
  lemma LoneContainerLeavesMessage()
    ensures Parse([RPARAM_ARRAY], 0, 0) == PastEnd && Parse([RPARAM_HASH], 0, 0) == PastEnd
  {
    assert ParseItems([RPARAM_ARRAY], 1, 0, false, true) == PastEnd;
    assert ParseItems([RPARAM_HASH], 1, 0, true, true) == PastEnd;
  }

  /** The converse fails: the last byte may be part of a string, and then the message is read like any other. */
  lemma ContainerByteInString()
    ensures Parse([SHORT_STR + 1, RPARAM_ARRAY], 0, 0) == Parsed(Str([RPARAM_ARRAY]), 2, 1)
  {
    var d: octets := [SHORT_STR + 1, RPARAM_ARRAY];
    assert d[1..2] == [RPARAM_ARRAY];
  }
}
