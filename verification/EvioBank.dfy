/** Banks, segments and tagsegments: their headers, trees and words. */
module EvioFormat {
  import opened Options

  type Word = x: nat | x < 0x1_0000_0000
  type Tag = x: nat | x < 0x1_0000
  type Num = x: nat | x < 0x100

  datatype Kind = Bank | Segment | TagSegment
  datatype Content = FourByte | OneByte | TwoByte | EightByte | Container | Illegal

  /** The header format of a bank type; other types are refused. */
  function KindOf(bankType: nat): Option<Kind> {
    if bankType == 0xe || bankType == 0x10 then Some(Bank)
    else if bankType == 0xd || bankType == 0x20 then Some(Segment)
    else if bankType == 0xc || bankType == 0x40 then Some(TagSegment)
    else None
  }

  function ContentOf(t: nat): (c: Content)
    ensures c == Container <==> KindOf(t).Some?
  {
    if t in {0x0, 0x1, 0x2, 0xb, 0xf} then FourByte
    else if t in {0x3, 0x6, 0x7} then OneByte
    else if t in {0x4, 0x5} then TwoByte
    else if t in {0x8, 0x9, 0xa} then EightByte
    else if t in {0xe, 0x10, 0xd, 0x20, 0xc, 0x40} then Container
    else Illegal
  }

  function DataOffset(kind: Kind): nat { if kind == Bank then 2 else 1 }

  /** A 32-bit pattern read as a signed number. */
  function AsInt(x: Word): int { if x < 0x8000_0000 then x else x - 0x1_0000_0000 }

  datatype Header = Header(length: int, tag: Tag, contentType: nat, num: Num, padding: nat)

  function ReadHeader(buf: seq<Word>, at: nat, kind: Kind): Header
    requires at + DataOffset(kind) <= |buf|
  {
    var w: int := buf[at];
    match kind
    case Bank =>
      var v := buf[at + 1];
      Header(AsInt((w + 1) % 0x1_0000_0000), v / 0x1_0000, v / 0x100 % 0x40, v % 0x100, v / 0x4000 % 4)
    case Segment => Header(w % 0x1_0000 + 1, w / 0x100_0000, w / 0x1_0000 % 0x40, 0, w / 0x40_0000 % 4)
    case TagSegment => Header(w % 0x1_0000 + 1, w / 0x10_0000, w / 0x1_0000 % 0x10, 0, 0)
  }

  /** How far the loop over the contents of a container steps over a child. */
  function Step(w: Word, kind: Kind): nat {
    if kind == Bank then (w + 1) % 0x1_0000_0000 else w % 0x1_0000 + 1
  }

  /** What the index keeps of a leaf: `data` is the position of its first data word. */
  datatype Leaf = Leaf(tag: Tag, num: Num, contentType: nat, length: Word, data: nat)

  /** The element count that is handed to the leaf handler; division truncates towards zero. */
  function DataLength(h: Header, kind: Kind): int {
    var words := h.length - DataOffset(kind);
    match ContentOf(h.contentType)
    case OneByte => words * 4 - h.padding
    case TwoByte => words * 2 - h.padding / 2
    case EightByte => if words >= 0 then words / 2 else -((-words) / 2)
    case _ => words
  }

  function MakeLeaf(h: Header, kind: Kind, at: nat): Leaf {
    Leaf(h.tag, h.num, h.contentType, DataLength(h, kind) % 0x1_0000_0000, at + DataOffset(kind))
  }

  // ---- parsing ----

  /** The leaves below the bank at `at`, in the order they are visited. None where the code throws,
      reads outside the buffer or never returns. */
  function Parse(buf: seq<Word>, at: nat, bankType: nat): Option<seq<Leaf>>
    decreases if at <= |buf| then |buf| - at else 0, 0
  {
    match KindOf(bankType)
    case None => None
    case Some(kind) =>
      if at + DataOffset(kind) > |buf| then None
      else
        var h := ReadHeader(buf, at, kind);
        match ContentOf(h.contentType)
        case Illegal => None
        case Container => ParseChildren(buf, at + DataOffset(kind), 0, h.length - DataOffset(kind), h.contentType)
        case _ => Some([MakeLeaf(h, kind, at)])
  }

  /** The children from offset p on of the contents at `start`. */
  function ParseChildren(buf: seq<Word>, start: nat, p: nat, bankLen: int, contentType: nat): Option<seq<Leaf>>
    requires KindOf(contentType).Some?
    decreases if start + p <= |buf| then |buf| - (start + p) else 0, 1
  {
    if p >= bankLen then Some([])
    else if start + p >= |buf| then None
    else
      match Parse(buf, start + p, contentType)
      case None => None
      case Some(leaves) =>
        var step := Step(buf[start + p], KindOf(contentType).value);
        if step == 0 || p + step >= 0x8000_0000 then None
        else
          match ParseChildren(buf, start, p + step, bankLen, contentType)
          case None => None
          case Some(more) => Some(leaves + more)
  }

  // ---- the index ----

  /** (tag << 16) | num in 32 bits. */
  function Key(tag: Word, num: Num): Word {
    tag % 0x1_0000 * 0x1_0000 + num
  }

  /** Entries of later leaves replace those of earlier ones. */
  function Filled(index: map<Word, Leaf>, leaves: seq<Leaf>): map<Word, Leaf>
    decreases |leaves|
  {
    if leaves == [] then index
    else Filled(index[Key(leaves[0].tag, leaves[0].num) := leaves[0]], leaves[1..])
  }

  /** The last leaf of a tag and number. */
  function LastLeaf(leaves: seq<Leaf>, tag: nat, num: nat): Option<Leaf> {
    if leaves == [] then None
    else
      var last := leaves[|leaves| - 1];
      if last.tag == tag && last.num == num then Some(last) else LastLeaf(leaves[..|leaves| - 1], tag, num)
  }

  // ---- trees ----

  type Byte = x: nat | x < 0x100
  type Half = x: nat | x < 0x1_0000
  type Long = x: nat | x < 0x1_0000_0000_0000_0000

  /** What a leaf holds: numbers of one, two, four or eight bytes. */
  datatype Elements =
    | Bytes(bytes: seq<Byte>)
    | Halves(halves: seq<Half>)
    | Words(words: seq<Word>)
    | Longs(longs: seq<Long>)
  {
    function Count(): nat {
      match this
      case Bytes(b) => |b|
      case Halves(h) => |h|
      case Words(w) => |w|
      case Longs(l) => |l|
    }

    function Size(): nat {
      match this
      case Bytes(_) => 1
      case Halves(_) => 2
      case Words(_) => 4
      case Longs(_) => 8
    }
  }

  /** Element i, or zero behind the last one. */
  function At(s: seq<nat>, i: nat): nat { if i < |s| then s[i] else 0 }

  /** The elements in memory words, lowest bytes first, with zero bytes up to the end of the last word. */
  function InWords(e: Elements): (w: seq<Word>)
    ensures 4 * |w| - 4 < e.Size() * e.Count() <= 4 * |w|
  {
    match e
    case Bytes(b) => seq((|b| + 3) / 4, i requires 0 <= i < (|b| + 3) / 4 =>
      ByteWord(At(b, 4 * i), At(b, 4 * i + 1), At(b, 4 * i + 2), At(b, 4 * i + 3)))
    case Halves(h) => seq((|h| + 1) / 2, i requires 0 <= i < (|h| + 1) / 2 =>
      HalfWord(At(h, 2 * i), At(h, 2 * i + 1)))
    case Words(w) => w
    case Longs(l) => seq(2 * |l|, i requires 0 <= i < 2 * |l| => LongWord(l[i / 2], i % 2 == 1))
  }

  function ByteWord(a: nat, b: nat, c: nat, d: nat): Word
    requires a < 0x100 && b < 0x100 && c < 0x100 && d < 0x100
  {
    a + 0x100 * b + 0x1_0000 * c + 0x100_0000 * d
  }

  function HalfWord(a: nat, b: nat): Word
    requires a < 0x1_0000 && b < 0x1_0000
  {
    a + 0x1_0000 * b
  }

  function LongWord(x: Long, high: bool): Word {
    if high then x / 0x1_0000_0000 else x % 0x1_0000_0000
  }

  /** The content types of each element size. */
  predicate Holds(contentType: nat, e: Elements) {
    match e
    case Bytes(_) => contentType == 0x3 || contentType == 0x6 || contentType == 0x7
    case Halves(_) => contentType == 0x4 || contentType == 0x5
    case Words(_) => contentType <= 0x2 || contentType == 0xb || contentType == 0xf
    case Longs(_) => contentType == 0x8 || contentType == 0x9 || contentType == 0xa
  }

  /** The content types of containers, and what their children are. */
  predicate HoldsBanks(contentType: nat) {
    contentType in {0xc, 0xd, 0xe, 0x10, 0x20, 0x40}
  }

  function HeldKind(contentType: nat): Kind
    requires HoldsBanks(contentType)
  {
    match contentType
    case 0xe => Bank
    case 0x10 => Bank
    case 0xd => Segment
    case 0x20 => Segment
    case _ => TagSegment
  }

  /** `tag`, `num` and `contentType` are header fields. */
  datatype Tree =
    | LeafTree(tag: nat, num: nat, contentType: nat, elements: Elements)
    | NodeTree(tag: nat, num: nat, contentType: nat, children: seq<Tree>)

  /** The bytes that fill up the last word. */
  function PadFor(e: Elements): (p: nat)
    ensures p < 4
  {
    4 * |InWords(e)| - e.Size() * e.Count()
  }

  function HeaderWords(kind: Kind, contents: nat, tag: nat, contentType: nat, num: nat, padding: nat): (w: seq<nat>)
    ensures |w| == DataOffset(kind)
  {
    match kind
    case Bank => [contents + 1, tag * 0x1_0000 + padding * 0x4000 + contentType * 0x100 + num]
    case Segment => [tag * 0x100_0000 + padding * 0x40_0000 + contentType * 0x1_0000 + contents]
    case TagSegment => [tag * 0x10_0000 + contentType * 0x1_0000 + contents]
  }

  /** The kind of a node's children. */
  function KindBelow(t: Tree): Kind
    requires t.NodeTree?
  {
    if HoldsBanks(t.contentType) then HeldKind(t.contentType) else Bank
  }

  /** The words of a tree under a header of the given kind. Tagsegments have no padding field. */
  function Encode(t: Tree, kind: Kind): seq<nat>
    decreases t, 0
  {
    match t
    case LeafTree(tag, num, contentType, e) =>
      HeaderWords(kind, |InWords(e)|, tag, contentType, num, PadFor(e)) + InWords(e)
    case NodeTree(tag, num, contentType, children) =>
      var contents := EncodeAll(children, KindBelow(t));
      HeaderWords(kind, |contents|, tag, contentType, num, 0) + contents
  }

  function EncodeAll(trees: seq<Tree>, kind: Kind): seq<nat>
    decreases trees, 1
  {
    if trees == [] then [] else Encode(trees[0], kind) + EncodeAll(trees[1..], kind)
  }

  /** Header fields fit their bits, lengths fit theirs, and leaves and nodes hold what their content
      types say. */
  predicate FieldsFit(kind: Kind, contents: nat, tag: nat, contentType: nat, num: nat) {
    match kind
    case Bank => tag < 0x1_0000 && contentType < 0x40 && num < 0x100 && contents + 2 < 0x8000_0000
    case Segment => tag < 0x100 && contentType < 0x40 && num == 0 && contents < 0x1_0000
    case TagSegment => tag < 0x1000 && contentType < 0x10 && num == 0 && contents < 0x1_0000
  }

  predicate Okay(t: Tree, kind: Kind)
    decreases t, 0
  {
    match t
    case LeafTree(tag, num, contentType, e) =>
      FieldsFit(kind, |InWords(e)|, tag, contentType, num) && Holds(contentType, e) && e.Count() < 0x1_0000_0000
    case NodeTree(tag, num, contentType, children) =>
      && FieldsFit(kind, |EncodeAll(children, KindBelow(t))|, tag, contentType, num)
      && HoldsBanks(contentType)
      && AllOkay(children, KindBelow(t))
  }

  predicate AllOkay(trees: seq<Tree>, kind: Kind)
    decreases trees, 1
  {
    trees == [] || (Okay(trees[0], kind) && AllOkay(trees[1..], kind))
  }

  /** The element count the reader works out: it cannot see the padding of a tagsegment. */
  function CountSeen(kind: Kind, e: Elements): nat {
    if kind == TagSegment then 4 * |InWords(e)| / e.Size() else e.Count()
  }

  /** The leaves of a tree whose words begin at `at`, from left to right. */
  function Leaves(t: Tree, kind: Kind, at: nat): seq<Leaf>
    requires Okay(t, kind)
    decreases t, 0
  {
    match t
    case LeafTree(tag, num, contentType, e) =>
      [Leaf(tag, num, contentType, CountSeen(kind, e) % 0x1_0000_0000, at + DataOffset(kind))]
    case NodeTree(tag, num, contentType, children) =>
      AllLeaves(children, KindBelow(t), at + DataOffset(kind))
  }

  function AllLeaves(trees: seq<Tree>, kind: Kind, at: nat): seq<Leaf>
    requires AllOkay(trees, kind)
    decreases trees, 1
  {
    if trees == [] then []
    else Leaves(trees[0], kind, at) + AllLeaves(trees[1..], kind, at + |Encode(trees[0], kind)|)
  }
}

/** What the leaves of a tree really are. */
module EvioTrees {
  import opened EvioFormat

  /** The leaves with the element counts of the tree, whatever the header can tell a reader. */
  function TrueLeaves(t: Tree, kind: Kind, at: nat): seq<Leaf>
    requires Okay(t, kind)
    decreases t, 0
  {
    match t
    case LeafTree(tag, num, contentType, e) => [Leaf(tag, num, contentType, e.Count(), at + DataOffset(kind))]
    case NodeTree(tag, num, contentType, children) =>
      AllTrueLeaves(children, KindBelow(t), at + DataOffset(kind))
  }

  function AllTrueLeaves(trees: seq<Tree>, kind: Kind, at: nat): seq<Leaf>
    requires AllOkay(trees, kind)
    decreases trees, 1
  {
    if trees == [] then []
    else TrueLeaves(trees[0], kind, at) + AllTrueLeaves(trees[1..], kind, at + |Encode(trees[0], kind)|)
  }

  /** What the leaves hold, from left to right. */
  function DataOf(t: Tree): seq<Elements>
    decreases t, 0
  {
    match t
    case LeafTree(_, _, _, e) => [e]
    case NodeTree(_, _, _, children) => AllDataOf(children)
  }

  function AllDataOf(trees: seq<Tree>): seq<Elements>
    decreases trees, 1
  {
    if trees == [] then [] else DataOf(trees[0]) + AllDataOf(trees[1..])
  }

  /** No leaf under a tagsegment header has bytes that fill up its last word. */
  predicate Unpadded(t: Tree, kind: Kind)
    decreases t, 0
  {
    match t
    case LeafTree(_, _, _, e) => kind == TagSegment ==> PadFor(e) == 0
    case NodeTree(_, _, _, children) => AllUnpadded(children, KindBelow(t))
  }

  predicate AllUnpadded(trees: seq<Tree>, kind: Kind)
    decreases trees, 1
  {
    trees == [] || (Unpadded(trees[0], kind) && AllUnpadded(trees[1..], kind))
  }

  /** The count is right exactly when the header has a padding field or there is nothing to pad. */
  lemma CountIsRightExactlyWhen(kind: Kind, e: Elements)
    ensures CountSeen(kind, e) == e.Count() <==> kind != TagSegment || PadFor(e) == 0
    ensures e.Count() <= CountSeen(kind, e) < e.Count() + 4
  {
    hide InWords;
    if kind == TagSegment {
      match e
      case Longs(l) => LongsFill(l);
      case _ => FilledExactlyWhen(|InWords(e)|, e.Count(), e.Size());
    }
  }

  /** So many words hold just the elements exactly when no byte is left over. */
  lemma FilledExactlyWhen(words: nat, count: nat, size: nat)
    requires size == 1 || size == 2 || size == 4
    requires 4 * words - 4 < size * count <= 4 * words
    ensures 4 * words / size == count <==> 4 * words - size * count == 0
    ensures count <= 4 * words / size < count + 4
  {
    if size == 1 {
      assert 4 * words / size == 4 * words;
    } else if size == 2 {
      assert 4 * words / size == 2 * words;
    } else {
      assert 4 * words / size == words;
    }
  }

  lemma LongsFill(l: seq<Long>)
    ensures |InWords(Longs(l))| == 2 * |l|
  {
  }

  lemma LeafIsTrueExactlyWhen(t: Tree, kind: Kind, at: nat)
    requires t.LeafTree? && Okay(t, kind)
    ensures Leaves(t, kind, at) == TrueLeaves(t, kind, at) <==> Unpadded(t, kind)
  {
    hide InWords, PadFor, CountSeen, FieldsFit, Holds;
    CountIsRightExactlyWhen(kind, t.elements);
  }

  lemma {:induction false} LeavesAreTrueExactlyWhen(t: Tree, kind: Kind, at: nat)
    requires Okay(t, kind)
    ensures |Leaves(t, kind, at)| == |TrueLeaves(t, kind, at)|
    ensures Leaves(t, kind, at) == TrueLeaves(t, kind, at) <==> Unpadded(t, kind)
    decreases t, 0
  {
    hide HeaderWords, CountSeen, PadFor, FieldsFit;
    match t
    case LeafTree(_, _, _, _) => LeafIsTrueExactlyWhen(t, kind, at);
    case NodeTree(_, _, _, children) => AllLeavesAreTrueExactlyWhen(children, KindBelow(t), at + DataOffset(kind));
  }

  lemma {:induction false} AllLeavesAreTrueExactlyWhen(trees: seq<Tree>, kind: Kind, at: nat)
    requires AllOkay(trees, kind)
    ensures |AllLeaves(trees, kind, at)| == |AllTrueLeaves(trees, kind, at)|
    ensures AllLeaves(trees, kind, at) == AllTrueLeaves(trees, kind, at) <==> AllUnpadded(trees, kind)
    decreases trees, 1
  {
    hide Okay, Leaves, TrueLeaves, Unpadded, Encode;
    if trees != [] {
      var next := at + |Encode(trees[0], kind)|;
      LeavesAreTrueExactlyWhen(trees[0], kind, at);
      AllLeavesAreTrueExactlyWhen(trees[1..], kind, next);
      SameParts(Leaves(trees[0], kind, at), AllLeaves(trees[1..], kind, next),
                TrueLeaves(trees[0], kind, at), AllTrueLeaves(trees[1..], kind, next));
    }
  }

  lemma SameParts(a: seq<Leaf>, b: seq<Leaf>, c: seq<Leaf>, d: seq<Leaf>)
    requires |a| == |c| && |b| == |d|
    ensures a + b == c + d <==> a == c && b == d
  {
    if a + b == c + d {
      assert a == (a + b)[..|a|] && c == (c + d)[..|a|];
      assert b == (a + b)[|a|..] && d == (c + d)[|a|..];
    }
  }
}

/** The parser on encoded trees, and the index it fills. */
module EvioProperties {
  import opened Arith
  import opened EvioTrees
  import opened Options
  import opened Seqs
  import opened EvioFormat

  /** Cutting a word between two of its fields. */
  lemma Cut(high: nat, low: nat, base: nat)
    requires low < base
    ensures (high * base + low) / base == high && (high * base + low) % base == low
  {
    assert base * high == high * base;
    QuotientIs(high * base + low, base, high, low);
  }

  lemma BankWord(tag: nat, padding: nat, contentType: nat, num: nat)
    requires tag < 0x1_0000 && padding < 4 && contentType < 0x40 && num < 0x100
    ensures var v := tag * 0x1_0000 + padding * 0x4000 + contentType * 0x100 + num;
            v / 0x1_0000 == tag && v / 0x4000 % 4 == padding && v / 0x100 % 0x40 == contentType && v % 0x100 == num
  {
    Cut(tag, padding * 0x4000 + contentType * 0x100 + num, 0x1_0000);
    Cut(tag * 4 + padding, contentType * 0x100 + num, 0x4000);
    Cut(tag, padding, 4);
    Cut((tag * 4 + padding) * 0x40 + contentType, num, 0x100);
    Cut(tag * 4 + padding, contentType, 0x40);
  }

  lemma SegmentWord(tag: nat, padding: nat, contentType: nat, contents: nat)
    requires padding < 4 && contentType < 0x40 && contents < 0x1_0000
    ensures var w := tag * 0x100_0000 + padding * 0x40_0000 + contentType * 0x1_0000 + contents;
            && w / 0x100_0000 == tag && w / 0x40_0000 % 4 == padding
            && w / 0x1_0000 % 0x40 == contentType && w % 0x1_0000 == contents
  {
    Cut(tag, padding * 0x40_0000 + contentType * 0x1_0000 + contents, 0x100_0000);
    Cut(tag * 4 + padding, contentType * 0x1_0000 + contents, 0x40_0000);
    Cut(tag, padding, 4);
    Cut((tag * 4 + padding) * 0x40 + contentType, contents, 0x1_0000);
    Cut(tag * 4 + padding, contentType, 0x40);
  }

  lemma TagSegmentWord(tag: nat, contentType: nat, contents: nat)
    requires contentType < 0x10 && contents < 0x1_0000
    ensures var w := tag * 0x10_0000 + contentType * 0x1_0000 + contents;
            w / 0x10_0000 == tag && w / 0x1_0000 % 0x10 == contentType && w % 0x1_0000 == contents
  {
    Cut(tag, contentType * 0x1_0000 + contents, 0x10_0000);
    Cut(tag * 0x10 + contentType, contents, 0x1_0000);
    Cut(tag, contentType, 0x10);
  }

  lemma BankReadsBack(buf: seq<Word>, at: nat, contents: nat, tag: nat, contentType: nat, num: nat, padding: nat)
    requires FieldsFit(Bank, contents, tag, contentType, num) && padding < 4 && at + 2 <= |buf|
    requires buf[at] == contents + 1
    requires buf[at + 1] == tag * 0x1_0000 + padding * 0x4000 + contentType * 0x100 + num
    ensures ReadHeader(buf, at, Bank) == Header(contents + 2, tag, contentType, num, padding)
    ensures Step(buf[at], Bank) == contents + 2
  {
    BankWord(tag, padding, contentType, num);
  }

  lemma SegmentReadsBack(buf: seq<Word>, at: nat, contents: nat, tag: nat, contentType: nat, padding: nat)
    requires FieldsFit(Segment, contents, tag, contentType, 0) && padding < 4 && at < |buf|
    requires buf[at] == tag * 0x100_0000 + padding * 0x40_0000 + contentType * 0x1_0000 + contents
    ensures ReadHeader(buf, at, Segment) == Header(contents + 1, tag, contentType, 0, padding)
    ensures Step(buf[at], Segment) == contents + 1
  {
    SegmentWord(tag, padding, contentType, contents);
  }

  lemma TagSegmentReadsBack(buf: seq<Word>, at: nat, contents: nat, tag: nat, contentType: nat)
    requires FieldsFit(TagSegment, contents, tag, contentType, 0) && at < |buf|
    requires buf[at] == tag * 0x10_0000 + contentType * 0x1_0000 + contents
    ensures ReadHeader(buf, at, TagSegment) == Header(contents + 1, tag, contentType, 0, 0)
    ensures Step(buf[at], TagSegment) == contents + 1
  {
    TagSegmentWord(tag, contentType, contents);
  }

  /** The three header formats read back what was put into them, and the loop's step over a child is
      the child's whole length. */
  lemma HeaderReadsBack(buf: seq<Word>, at: nat, kind: Kind, contents: nat, tag: nat, contentType: nat, num: nat,
                        padding: nat)
    requires FieldsFit(kind, contents, tag, contentType, num) && padding < 4
    requires Lies(buf, at, HeaderWords(kind, contents, tag, contentType, num, padding))
    ensures ReadHeader(buf, at, kind) ==
            Header(contents + DataOffset(kind), tag, contentType, num, if kind == TagSegment then 0 else padding)
    ensures Step(buf[at], kind) == contents + DataOffset(kind)
  {
    hide ReadHeader, Step;
    var words := HeaderWords(kind, contents, tag, contentType, num, padding);
    LiesAt(buf, at, words, 0);
    match kind
    case Bank =>
      LiesAt(buf, at, words, 1);
      BankReadsBack(buf, at, contents, tag, contentType, num, padding);
    case Segment => SegmentReadsBack(buf, at, contents, tag, contentType, padding);
    case TagSegment => TagSegmentReadsBack(buf, at, contents, tag, contentType);
  }

  /** The count that the reader works out from the header of a leaf. */
  lemma CountReadsBack(kind: Kind, tag: Tag, num: Num, contentType: nat, e: Elements)
    requires Holds(contentType, e)
    ensures DataLength(Header(|InWords(e)| + DataOffset(kind), tag, contentType, num,
                              if kind == TagSegment then 0 else PadFor(e)), kind)
            == CountSeen(kind, e)
    ensures ContentOf(contentType) != Container && ContentOf(contentType) != Illegal
  {
    SizedContent(contentType, e);
    hide InWords, ContentOf, Holds;
    if e.Longs? {
      LongsFill(e.longs);
    }
  }

  lemma SizedContent(contentType: nat, e: Elements)
    requires Holds(contentType, e)
    ensures ContentOf(contentType) ==
            if e.Bytes? then OneByte else if e.Halves? then TwoByte else if e.Words? then FourByte else EightByte
  {
  }

  /** The types of containers give the header format of their children; all other types are refused. */
  lemma KindsAre(contentType: nat)
    ensures KindOf(contentType) == if HoldsBanks(contentType) then Some(HeldKind(contentType)) else None
    ensures HoldsBanks(contentType) <==> ContentOf(contentType) == Container
  {
  }

  lemma {:induction false} EncodeSize(t: Tree, kind: Kind)
    ensures |Encode(t, kind)| >= DataOffset(kind)
  {
  }

  lemma ParseReadsLeaf(buf: seq<Word>, at: nat, t: Tree, bankType: nat)
    requires HoldsBanks(bankType) && t.LeafTree? && Okay(t, HeldKind(bankType))
    requires Lies(buf, at, Encode(t, HeldKind(bankType)))
    ensures Parse(buf, at, bankType) == Some(Leaves(t, HeldKind(bankType), at))
  {
    hide HeaderWords, ReadHeader, Step, PadFor, DataLength, CountSeen, InWords, ContentOf, Holds, FieldsFit, KindOf,
         HoldsBanks, HeldKind;
    var kind := HeldKind(bankType);
    var words, pad := InWords(t.elements), PadFor(t.elements);
    KindsAre(bankType);
    LiesSplit(buf, at, HeaderWords(kind, |words|, t.tag, t.contentType, t.num, pad), words);
    HeaderReadsBack(buf, at, kind, |words|, t.tag, t.contentType, t.num, pad);
    CountReadsBack(kind, t.tag, t.num, t.contentType, t.elements);
  }

  /** parseBank on the words of a tree visits exactly its leaves, from left to right. */
  lemma {:induction false} ParseReadsTree(buf: seq<Word>, at: nat, t: Tree, bankType: nat)
    requires HoldsBanks(bankType) && Okay(t, HeldKind(bankType))
    requires Lies(buf, at, Encode(t, HeldKind(bankType)))
    ensures Parse(buf, at, bankType) == Some(Leaves(t, HeldKind(bankType), at))
    decreases t, 0
  {
    hide HeaderWords, ReadHeader, Step, KindOf, ContentOf, HoldsBanks, HeldKind;
    KindsAre(bankType);
    var kind := HeldKind(bankType);
    match t
    case LeafTree(_, _, _, _) => ParseReadsLeaf(buf, at, t, bankType);
    case NodeTree(tag, num, contentType, children) =>
      var contents := EncodeAll(children, KindBelow(t));
      KindsAre(contentType);
      LiesSplit(buf, at, HeaderWords(kind, |contents|, tag, contentType, num, 0), contents);
      HeaderReadsBack(buf, at, kind, |contents|, tag, contentType, num, 0);
      ParseReadsChildren(buf, at + DataOffset(kind), 0, |contents|, children, contentType);
  }

  /** The loop over the contents of a container advances by each child's own length, and ends
      exactly at the end of the contents. */
  lemma {:induction false} ParseReadsChildren(buf: seq<Word>, start: nat, p: nat, bankLen: int, trees: seq<Tree>,
                                              contentType: nat)
    requires HoldsBanks(contentType) && AllOkay(trees, HeldKind(contentType))
    requires Lies(buf, start + p, EncodeAll(trees, HeldKind(contentType)))
    requires bankLen == p + |EncodeAll(trees, HeldKind(contentType))| < 0x8000_0000
    ensures ParseChildren(buf, start, p, bankLen, contentType) ==
            Some(AllLeaves(trees, HeldKind(contentType), start + p))
    decreases trees, 1
  {
    hide HeaderWords, ReadHeader, Step, Parse, Encode, Okay, Leaves, KindOf, HoldsBanks, HeldKind;
    KindsAre(contentType);
    var kind := HeldKind(contentType);
    if trees != [] {
      var words := Encode(trees[0], kind);
      EncodeSize(trees[0], kind);
      LiesSplit(buf, start + p, words, EncodeAll(trees[1..], kind));
      ParseReadsTree(buf, start + p, trees[0], contentType);
      StepIsLength(buf, start + p, trees[0], kind);
      ParseReadsChildren(buf, start, p + |words|, bankLen, trees[1..], contentType);
    }
  }

  lemma OneLeafLies(buf: seq<Word>, at: nat, t: Tree, kind: Kind)
    requires t.LeafTree? && Okay(t, kind) && Lies(buf, at, Encode(t, kind))
    ensures Lies(buf, Leaves(t, kind, at)[0].data, InWords(t.elements))
  {
    hide HeaderWords, PadFor, CountSeen;
    var words := InWords(t.elements);
    LiesSplit(buf, at, HeaderWords(kind, |words|, t.tag, t.contentType, t.num, PadFor(t.elements)), words);
  }

  /** The position handed over for a leaf is where its words lie. */
  lemma {:induction false} LeafDataLie(buf: seq<Word>, at: nat, t: Tree, kind: Kind)
    requires Okay(t, kind) && Lies(buf, at, Encode(t, kind))
    ensures |Leaves(t, kind, at)| == |DataOf(t)|
    ensures forall i :: 0 <= i < |DataOf(t)| ==> Lies(buf, Leaves(t, kind, at)[i].data, InWords(DataOf(t)[i]))
    decreases t, 0
  {
    hide HeaderWords, PadFor, CountSeen, Lies;
    match t
    case LeafTree(_, _, _, _) => OneLeafLies(buf, at, t, kind);
    case NodeTree(tag, num, contentType, children) =>
      var contents := EncodeAll(children, KindBelow(t));
      LiesSplit(buf, at, HeaderWords(kind, |contents|, tag, contentType, num, 0), contents);
      AllLeafDataLie(buf, at + DataOffset(kind), children, KindBelow(t));
  }

  lemma {:induction false} AllLeafDataLie(buf: seq<Word>, at: nat, trees: seq<Tree>, kind: Kind)
    requires AllOkay(trees, kind) && Lies(buf, at, EncodeAll(trees, kind))
    ensures |AllLeaves(trees, kind, at)| == |AllDataOf(trees)|
    ensures forall i :: 0 <= i < |AllDataOf(trees)| ==>
            Lies(buf, AllLeaves(trees, kind, at)[i].data, InWords(AllDataOf(trees)[i]))
    decreases trees, 1
  {
    hide Okay, Leaves, DataOf, Encode, Lies, InWords;
    if trees != [] {
      var words := Encode(trees[0], kind);
      LiesSplit(buf, at, words, EncodeAll(trees[1..], kind));
      LeafDataLie(buf, at, trees[0], kind);
      AllLeafDataLie(buf, at + |words|, trees[1..], kind);
    }
  }

  /** The parser reports every leaf of a tree with its real element count exactly when no leaf under a
      tagsegment header is padded; in either case the data it points to are the leaf's words. */
  lemma ParseIsTrueExactlyWhen(buf: seq<Word>, at: nat, t: Tree, bankType: nat)
    requires HoldsBanks(bankType) && Okay(t, HeldKind(bankType))
    requires Lies(buf, at, Encode(t, HeldKind(bankType)))
    ensures Parse(buf, at, bankType) == Some(TrueLeaves(t, HeldKind(bankType), at)) <==>
            Unpadded(t, HeldKind(bankType))
    ensures var r := Parse(buf, at, bankType);
            && r.Some? && |r.value| == |DataOf(t)|
            && forall i :: 0 <= i < |DataOf(t)| ==> Lies(buf, r.value[i].data, InWords(DataOf(t)[i]))
  {
    hide Parse, Leaves, TrueLeaves, Unpadded, Okay, Encode, KindOf, Lies;
    ParseReadsTree(buf, at, t, bankType);
    LeavesAreTrueExactlyWhen(t, HeldKind(bankType), at);
    LeafDataLie(buf, at, t, HeldKind(bankType));
  }

  /** One byte in a tagsegment. */
  function ByteLeaf(): Tree { LeafTree(5, 0, 0x3, Bytes([0x7f])) }

  lemma ByteLeafIsOkay()
    ensures AllOkay([ByteLeaf()], TagSegment) && EncodeAll([ByteLeaf()], TagSegment) == [0x53_0001, 0x7f]
    ensures AllTrueLeaves([ByteLeaf()], TagSegment, 2) == [Leaf(5, 0, 0x3, 1, 3)]
  {
    assert [ByteLeaf()][1..] == [];
    assert AllOkay([], TagSegment) && EncodeAll([], TagSegment) == [];
    assert Okay(ByteLeaf(), TagSegment) && Encode(ByteLeaf(), TagSegment) == [0x53_0001, 0x7f];
  }

  /** A bank that holds a tagsegment with one byte, and its words: the reader reports four bytes. */
  lemma TagSegmentByteIsReadAsFour()
    ensures var t := NodeTree(1, 0, 0xc, [ByteLeaf()]);
            var buf: seq<Word> := [3, 0x1_0c00, 0x53_0001, 0x7f];
            && Okay(t, Bank) && Encode(t, Bank) == buf
            && Parse(buf, 0, 0xe) == Some([Leaf(5, 0, 0x3, 4, 3)])
            && TrueLeaves(t, Bank, 0) == [Leaf(5, 0, 0x3, 1, 3)]
  {
    ByteLeafIsOkay();
    ByteTagSegmentParses();
  }

  lemma ByteTagSegmentParses()
    ensures Parse([3, 0x1_0c00, 0x53_0001, 0x7f], 0, 0xe) == Some([Leaf(5, 0, 0x3, 4, 3)])
  {
    var buf: seq<Word> := [3, 0x1_0c00, 0x53_0001, 0x7f];
    assert Parse(buf, 2, 0xc) == Some([Leaf(5, 0, 0x3, 4, 3)]);
    assert ParseChildren(buf, 2, 2, 2, 0xc) == Some([]);
    assert Step(buf[2], TagSegment) == 2;
    assert ReadHeader(buf, 0, Bank) == Header(4, 1, 0xc, 0, 0);
    hide Parse, ReadHeader, Step;
    var leaf := Leaf(5, 0, 0x3, 4, 3);
    assert [leaf] + [] == [leaf];
    assert ParseChildren(buf, 2, 0, 2, 0xc) == Some([leaf]);
    OuterParses(buf);
  }

  lemma OuterParses(buf: seq<Word>)
    requires |buf| == 4 && ReadHeader(buf, 0, Bank) == Header(4, 1, 0xc, 0, 0)
    ensures Parse(buf, 0, 0xe) == ParseChildren(buf, 2, 0, 2, 0xc)
  {
    hide ParseChildren, ReadHeader;
  }

  lemma StepIsLength(buf: seq<Word>, at: nat, t: Tree, kind: Kind)
    requires Okay(t, kind) && Lies(buf, at, Encode(t, kind))
    ensures at < |buf| && Step(buf[at], kind) == |Encode(t, kind)|
  {
    hide HeaderWords, ReadHeader, Step, PadFor;
    match t
    case LeafTree(tag, num, contentType, e) =>
      var words := InWords(e);
      LiesSplit(buf, at, HeaderWords(kind, |words|, tag, contentType, num, PadFor(e)), words);
      HeaderReadsBack(buf, at, kind, |words|, tag, contentType, num, PadFor(e));
    case NodeTree(tag, num, contentType, children) =>
      var contents := EncodeAll(children, KindBelow(t));
      LiesSplit(buf, at, HeaderWords(kind, |contents|, tag, contentType, num, 0), contents);
      HeaderReadsBack(buf, at, kind, |contents|, tag, contentType, num, 0);
  }

  // ---- elements in memory, refused types and lengths out of range ----

  /** Byte k of words in memory. */
  function MemoryByte(words: seq<Word>, k: nat): nat
    requires k / 4 < |words|
  {
    var w := words[k / 4];
    match k % 4
    case 0 => w % 0x100
    case 1 => w / 0x100 % 0x100
    case 2 => w / 0x1_0000 % 0x100
    case _ => w / 0x100_0000
  }

  lemma ByteWordBytes(a: Byte, b: Byte, c: Byte, d: Byte)
    ensures var w := ByteWord(a, b, c, d);
            w % 0x100 == a && w / 0x100 % 0x100 == b && w / 0x1_0000 % 0x100 == c && w / 0x100_0000 == d
  {
    assert ByteWord(a, b, c, d) / 0x100 == b + 0x100 * c + 0x1_0000 * d;
    assert ByteWord(a, b, c, d) / 0x1_0000 == c + 0x100 * d;
  }

  lemma ByteInMemory(b: seq<Byte>, i: nat)
    requires i < |b|
    ensures i / 4 < |InWords(Bytes(b))| && b[i] == MemoryByte(InWords(Bytes(b)), i)
  {
    hide ByteWord;
    var j := i / 4;
    ByteWordBytes(At(b, 4 * j), At(b, 4 * j + 1), At(b, 4 * j + 2), At(b, 4 * j + 3));
    assert InWords(Bytes(b))[j] == ByteWord(At(b, 4 * j), At(b, 4 * j + 1), At(b, 4 * j + 2), At(b, 4 * j + 3));
    assert i == 4 * j + i % 4;
  }

  lemma HalfInMemory(h: seq<Half>, i: nat)
    requires i < |h|
    ensures i / 2 < |InWords(Halves(h))|
    ensures var w := InWords(Halves(h))[i / 2];
            h[i] == if i % 2 == 0 then w % 0x1_0000 else w / 0x1_0000
  {
    var j := i / 2;
    assert InWords(Halves(h))[j] == HalfWord(At(h, 2 * j), At(h, 2 * j + 1));
    assert i == 2 * j + i % 2;
  }

  lemma LongInMemory(l: seq<Long>, i: nat)
    requires i < |l|
    ensures 2 * i + 1 < |InWords(Longs(l))|
    ensures var low: nat, high: nat := InWords(Longs(l))[2 * i], InWords(Longs(l))[2 * i + 1];
            l[i] == low + 0x1_0000_0000 * high
  {
    LongsFill(l);
    assert InWords(Longs(l))[2 * i] == LongWord(l[i], false) && InWords(Longs(l))[2 * i + 1] == LongWord(l[i], true);
  }

  /** Element i lies at position i, counted in elements, lowest bytes first. */
  predicate LiesAtPlace(e: Elements, w: seq<Word>, i: nat)
    requires i < e.Count() && e.Size() * e.Count() <= 4 * |w|
  {
    match e
    case Bytes(b) => b[i] == MemoryByte(w, i)
    case Halves(h) => h[i] == if i % 2 == 0 then w[i / 2] % 0x1_0000 else w[i / 2] / 0x1_0000
    case Words(s) => s[i] == w[i]
    case Longs(l) =>
      var low: nat, high: nat := w[2 * i], w[2 * i + 1];
      l[i] == low + 0x1_0000_0000 * high
  }

  lemma ElementInMemory(e: Elements, i: nat)
    requires i < e.Count()
    ensures LiesAtPlace(e, InWords(e), i)
  {
    hide MemoryByte;
    match e
    case Bytes(b) =>
      hide InWords;
      ByteInMemory(b, i);
    case Halves(h) =>
      hide InWords;
      HalfInMemory(h, i);
    case Words(_) =>
    case Longs(l) =>
      hide InWords;
      LongInMemory(l, i);
  }

  /** No other bank type is parsed, and no content type that neither elements nor banks have. */
  lemma OtherTypesAreRefused(buf: seq<Word>, at: nat, bankType: nat)
    ensures !HoldsBanks(bankType) ==> Parse(buf, at, bankType) == None
    ensures HoldsBanks(bankType) && at + DataOffset(HeldKind(bankType)) <= |buf|
              && 0x10 < ReadHeader(buf, at, HeldKind(bankType)).contentType < 0x40
              && ReadHeader(buf, at, HeldKind(bankType)).contentType != 0x20 ==>
            Parse(buf, at, bankType) == None
  {
    hide ReadHeader, ParseChildren, DataLength;
    KindsAre(bankType);
  }

  /** The length of a bank is signed: outside 3 to 2^31 - 1 words it has no children to parse. */
  lemma NothingInside(buf: seq<Word>, at: nat)
    requires at + 2 <= |buf| && HoldsBanks(buf[at + 1] / 0x100 % 0x40)
    requires buf[at] < 2 || buf[at] >= 0x7fff_ffff
    ensures Parse(buf, at, 0xe) == Some([])
  {
    KindsAre(buf[at + 1] / 0x100 % 0x40);
  }

  /** Four 16-bit integers; and banks whose length leaves out their own header, where the number of words
      is -1 and half of it is zero. */
  lemma LengthExamples()
    ensures InWords(Halves([1, 2, 3, 4])) == [0x2_0001, 0x4_0003]
    ensures Parse([3, 0x1_0400, 0x2_0001, 0x4_0003], 0, 0xe) == Some([Leaf(1, 0, 4, 4, 2)])
    ensures Parse([0, 0x1_0100], 0, 0xe) == Some([Leaf(1, 0, 1, 0xffff_ffff, 2)])
    ensures Parse([0, 0x1_0800], 0, 0xe) == Some([Leaf(1, 0, 8, 0, 2)])
  {
    var buf: seq<Word> := [3, 0x1_0400, 0x2_0001, 0x4_0003];
    assert ReadHeader(buf, 0, Bank) == Header(4, 1, 4, 0, 0);
    OneLeafParses(buf);
    assert ReadHeader([0, 0x1_0100], 0, Bank) == Header(1, 1, 1, 0, 0);
    OneLeafParses([0, 0x1_0100]);
    assert ReadHeader([0, 0x1_0800], 0, Bank) == Header(1, 1, 8, 0, 0);
    OneLeafParses([0, 0x1_0800]);
    hide Parse, ReadHeader;
  }

  lemma OneLeafParses(buf: seq<Word>)
    requires |buf| >= 2 && ContentOf(ReadHeader(buf, 0, Bank).contentType) in {OneByte, TwoByte, FourByte, EightByte}
    ensures Parse(buf, 0, 0xe) == Some([MakeLeaf(ReadHeader(buf, 0, Bank), Bank, 0)])
  {
    hide MakeLeaf, ReadHeader;
  }

  // ---- the index ----

  lemma KeyIsInjective(a: Tag, m: Num, b: Tag, n: Num)
    ensures Key(a, m) == Key(b, n) <==> a == b && m == n
    ensures Key(a, m) / 0x1_0000 == a && Key(a, m) % 0x1_0000 == m
  {
  }

  lemma {:induction false} FilledAppend(index: map<Word, Leaf>, leaves: seq<Leaf>, leaf: Leaf)
    ensures Filled(index, leaves + [leaf]) == Filled(index, leaves)[Key(leaf.tag, leaf.num) := leaf]
    decreases |leaves|
  {
    var all := leaves + [leaf];
    if leaves == [] {
      assert all[1..] == [];
    } else {
      assert all[1..] == leaves[1..] + [leaf];
      FilledAppend(index[Key(leaves[0].tag, leaves[0].num) := leaves[0]], leaves[1..], leaf);
    }
  }

  /** The index holds, under each tag and number, the last such leaf, and nothing else. */
  lemma {:induction false} FilledHoldsLast(leaves: seq<Leaf>, tag: Tag, num: Num)
    ensures var index := Filled(map[], leaves);
            if LastLeaf(leaves, tag, num).None? then Key(tag, num) !in index
            else Key(tag, num) in index && index[Key(tag, num)] == LastLeaf(leaves, tag, num).value
    decreases |leaves|
  {
    hide Key;
    if leaves != [] {
      var init, last := leaves[..|leaves| - 1], leaves[|leaves| - 1];
      assert leaves == init + [last];
      FilledAppend(map[], init, last);
      FilledHoldsLast(init, tag, num);
      KeyIsInjective(tag, num, last.tag, last.num);
    }
  }
}

/** The class: a recursive method over the buffer that fills the index. */
module EvioIndex {
  import opened Options
  import opened EvioFormat
  import opened EvioProperties
  import opened EvioTrees
  import opened Seqs

  class EvioBankIndex {
    var evioIndex: map<Word, Leaf>

    constructor ()
      ensures evioIndex == map[]
    {
      evioIndex := map[];
    }

    /** Refused buffers leave the index in an unspecified state. */
    method InitBankIndex(buf: seq<Word>) returns (ok: bool)
      modifies this
      ensures ok <==> Parse(buf, 0, 0xe).Some?
      ensures ok ==> evioIndex == Filled(map[], Parse(buf, 0, 0xe).value)
    {
      evioIndex := map[];
      ok := ParseBank(buf, 0, 0xe);
    }

    method ParseBank(buf: seq<Word>, at: nat, bankType: nat) returns (ok: bool)
      modifies this
      ensures ok <==> Parse(buf, at, bankType).Some?
      ensures ok ==> evioIndex == Filled(old(evioIndex), Parse(buf, at, bankType).value)
      decreases if at <= |buf| then |buf| - at else 0
    {
      hide ReadHeader, Step, Key, MakeLeaf, DataLength, KindOf, ContentOf;
      ok := false;
      if KindOf(bankType).None? {
        return;
      }
      var kind := KindOf(bankType).value;
      if at + DataOffset(kind) > |buf| {
        return;
      }
      var h := ReadHeader(buf, at, kind);
      if ContentOf(h.contentType) == Illegal {
        return;
      }
      if ContentOf(h.contentType) != Container {
        LeafHandler(MakeLeaf(h, kind, at));
        return true;
      }
      var start, bankLen, p := at + DataOffset(kind), h.length - DataOffset(kind), 0;
      ghost var seen: seq<Leaf> := [];
      BehindNone(ParseChildren(buf, start, p, bankLen, h.contentType));
      while p < bankLen
        invariant evioIndex == Filled(old(evioIndex), seen)
        invariant Parse(buf, at, bankType) == Behind(seen, ParseChildren(buf, start, p, bankLen, h.contentType))
        decreases bankLen - p
      {
        if start + p >= |buf| {
          return;
        }
        var parsed := ParseBank(buf, start + p, h.contentType);
        if !parsed {
          return;
        }
        var step := Step(buf[start + p], KindOf(h.contentType).value);
        if step == 0 || p + step >= 0x8000_0000 {
          return;
        }
        ghost var leaves := Parse(buf, start + p, h.contentType).value;
        FilledConcat(old(evioIndex), seen, leaves);
        BehindConcat(seen, leaves, ParseChildren(buf, start, p + step, bankLen, h.contentType));
        seen := seen + leaves;
        p := p + step;
      }
      assert seen + [] == seen;
      ok := true;
    }

    method LeafHandler(leaf: Leaf)
      modifies this
      ensures evioIndex == Filled(old(evioIndex), [leaf])
    {
      evioIndex := evioIndex[Key(leaf.tag, leaf.num) := leaf];
      assert [leaf][1..] == [];
    }

    /** The bank of a tag and number. Only the low 16 bits of the tag reach the key. */
    method GetBank(tag: Word, num: Num, ghost leaves: seq<Leaf>) returns (r: Option<Leaf>)
      requires evioIndex == Filled(map[], leaves)
      ensures r == LastLeaf(leaves, tag % 0x1_0000, num)
    {
      FilledHoldsLast(leaves, tag % 0x1_0000, num);
      var key := Key(tag, num);
      assert key == Key(tag % 0x1_0000, num);
      r := if key in evioIndex then Some(evioIndex[key]) else None;
    }
  }

  lemma {:induction false} LastLeafIsOne(leaves: seq<Leaf>, tag: nat, num: nat)
    ensures LastLeaf(leaves, tag, num).Some? ==>
              exists i :: 0 <= i < |leaves| && leaves[i] == LastLeaf(leaves, tag, num).value
  {
    if leaves != [] {
      LastLeafIsOne(leaves[..|leaves| - 1], tag, num);
    }
  }

  /** The leaves seen so far, followed by those of the rest. */
  ghost function Behind(seen: seq<Leaf>, rest: Option<seq<Leaf>>): Option<seq<Leaf>> {
    match rest
    case None => None
    case Some(leaves) => Some(seen + leaves)
  }

  lemma BehindNone(rest: Option<seq<Leaf>>)
    ensures Behind([], rest) == rest
  {
    if rest.Some? {
      assert [] + rest.value == rest.value;
    }
  }

  lemma BehindConcat(seen: seq<Leaf>, leaves: seq<Leaf>, rest: Option<seq<Leaf>>)
    ensures Behind(seen, Behind(leaves, rest)) == Behind(seen + leaves, rest)
  {
    if rest.Some? {
      assert seen + (leaves + rest.value) == (seen + leaves) + rest.value;
    }
  }

  lemma {:induction false} FilledConcat(index: map<Word, Leaf>, a: seq<Leaf>, b: seq<Leaf>)
    ensures Filled(index, a + b) == Filled(Filled(index, a), b)
    decreases |a|
  {
    if a == [] {
      assert a + b == b;
    } else {
      assert (a + b)[1..] == a[1..] + b;
      FilledConcat(index[Key(a[0].tag, a[0].num) := a[0]], a[1..], b);
    }
  }

  /** Indexing the words of any well-formed tree and asking for a tag and number gives its last such
      leaf from left to right, or nothing when it has none; with its real element count for all leaves
      exactly when no leaf under a tagsegment header is padded. What it points to are its words. */
  method IndexTree(t: Tree, buf: seq<Word>, tag: Word, num: Num) returns (r: Option<Leaf>)
    requires Okay(t, Bank) && buf == Encode(t, Bank)
    ensures r == LastLeaf(Leaves(t, Bank, 0), tag % 0x1_0000, num)
    ensures Unpadded(t, Bank) ==> r == LastLeaf(TrueLeaves(t, Bank, 0), tag % 0x1_0000, num)
    ensures r.Some? ==>
              exists i :: 0 <= i < |DataOf(t)| == |Leaves(t, Bank, 0)| && Leaves(t, Bank, 0)[i] == r.value
                          && Lies(buf, r.value.data, InWords(DataOf(t)[i]))
  {
    hide Okay, Encode, Leaves, TrueLeaves, Unpadded, DataOf;
    var index := new EvioBankIndex();
    assert Lies(buf, 0, Encode(t, Bank));
    ParseReadsTree(buf, 0, t, 0xe);
    LeavesAreTrueExactlyWhen(t, Bank, 0);
    LeafDataLie(buf, 0, t, Bank);
    LastLeafIsOne(Leaves(t, Bank, 0), tag % 0x1_0000, num);
    var ok := index.InitBankIndex(buf);
    r := index.GetBank(tag, num, Leaves(t, Bank, 0));
  }
}
