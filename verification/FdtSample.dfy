/** A blob written out byte by byte, as the device tree format has it, with the tree it
    stands for: a root with a property reg of two bytes and a subnode cpu, and one
    reserved range. It ties the tags, the header layout and the byte order of the model to
    the format itself. */
module FdtSample {
  import opened Memory
  import opened FdtBytes
  import opened FdtTree
  import opened FdtFormat
  import opened FdtBlob

  const HEAD: seq<byte> := [
    0xd0, 0x0d, 0xfe, 0xed, 0, 0, 0, 0x78, 0, 0, 0, 0x48,
    0, 0, 0, 0x74, 0, 0, 0, 0x28, 0, 0, 0, 0x11,
    0, 0, 0, 0x10, 0, 0, 0, 0, 0, 0, 0, 4,
    0, 0, 0, 0x2c]

  const MAP: seq<byte> := [
    0, 0, 0, 0, 0, 0, 0x10, 0, 0, 0, 0, 0, 0, 0, 2, 0,
    0, 0, 0, 0, 0, 0, 0, 0, 0, 0, 0, 0, 0, 0, 0, 0]

  const ROOT: seq<byte> := [0, 0, 0, 1, 0, 0, 0, 0]
  const REG: seq<byte> := [0, 0, 0, 3, 0, 0, 0, 2, 0, 0, 0, 0, 0x2a, 0x2b, 0, 0]
  const CPU: seq<byte> := [0, 0, 0, 1, 0x63, 0x70, 0x75, 0]
  const CLOSE: seq<byte> := [0, 0, 0, 2]
  const LAST: seq<byte> := [0, 0, 0, 9]
  const STRS: seq<byte> := [0x72, 0x65, 0x67, 0]

  function Struct(): (s: seq<byte>)
    ensures |s| == 44
  {
    ROOT + REG + CPU + CLOSE + CLOSE + LAST
  }

  function Sample(): (s: seq<byte>)
    ensures |s| == 120
  {
    HEAD + MAP + Struct() + STRS
  }

  const NAME: Name := [0x63, 0x70, 0x75]
  const BODY: seq<Token> := [Begin([]), Prop(0, [0x2a, 0x2b]), Begin(NAME), EndNode, EndNode]
  const VIEW: View := View([Reserve(0x1000, 0x200)], BODY, STRS)
  const TREE: Node := Node([], [Property([0x72, 0x65, 0x67], [0x2a, 0x2b])], [Node(NAME, [], [])])

  lemma Heading()
    ensures Hdr(Sample()) == Header(0xd00d_feed, 120, 72, 116, 40, 17, 16, 0, 4, 44)
  {
    var s := Sample();
    assert s[..40] == HEAD;
    HeadIs(s);
  }

  lemma HeadIs(s: seq<byte>)
    requires |s| >= 40 && s[..40] == HEAD
    ensures Hdr(s) == Header(0xd00d_feed, 120, 72, 116, 40, 17, 16, 0, 4, 44)
  {
    forall i | 0 <= i < 40
      ensures s[i] == HEAD[i]
    {
      assert s[i] == s[..40][i];
    }
    HeadWords();
    hide Hdr;
    SameHeader(HEAD, s);
  }

  lemma HeadWords()
    ensures Hdr(HEAD) == Header(0xd00d_feed, 120, 72, 116, 40, 17, 16, 0, 4, 44)
  {
  }

  lemma Mapping()
    ensures RsvEnc(MAP, VIEW.rsv)
  {
    assert Word(MAP, 0) == 0 && Word(MAP, 4) == 0x1000 && Word(MAP, 8) == 0 && Word(MAP, 12) == 0x200;
    assert Word(MAP, 24) == 0 && Word(MAP, 28) == 0;
    hide Word;
    assert EntryAt(MAP, 16 * 0, VIEW.rsv[0]);
  }

  lemma Tokens()
    ensures TokEnc(ROOT, Begin([])) && TokEnc(CPU, Begin(NAME)) && TokEnc(CLOSE, EndNode) && TokEnc(LAST, End)
  {
    assert CPU[4..7] == NAME;
  }

  lemma RegToken()
    ensures TokEnc(REG, Prop(0, [0x2a, 0x2b]))
  {
    assert REG[12..14] == [0x2a, 0x2b];
  }

  lemma Structure()
    ensures Encodes(Struct(), VIEW.Toks()) && Size(VIEW.Toks()) == 44
  {
    Tokens();
    RegToken();
    hide Encodes, TokEnc;
    var t0, t1, t2 := [Begin([])], [Begin([]), Prop(0, [0x2a, 0x2b])], [Begin([]), Prop(0, [0x2a, 0x2b]), Begin(NAME)];
    EncodesOne(ROOT, Begin([]));
    EncodesSnoc(ROOT, t0, REG, Prop(0, [0x2a, 0x2b]));
    assert t0 + [Prop(0, [0x2a, 0x2b])] == t1 && t1 + [Begin(NAME)] == t2;
    EncodesSnoc(ROOT + REG, t1, CPU, Begin(NAME));
    EncodesSnoc(ROOT + REG + CPU, t2, CLOSE, EndNode);
    EncodesSnoc(ROOT + REG + CPU + CLOSE, t2 + [EndNode], CLOSE, EndNode);
    assert t2 + [EndNode] + [EndNode] == BODY;
    EncodesSnoc(ROOT + REG + CPU + CLOSE + CLOSE, BODY, LAST, End);
    EncodesSize(Struct(), VIEW.Toks());
  }

  /** The bytes are a blob with that map and those tokens. */
  lemma SampleHolds()
    ensures Holds(Sample(), VIEW)
  {
    var s := Sample();
    Heading();
    Mapping();
    Structure();
    hide Hdr, Encodes, RsvEnc, Size;
    assert s[40..72] == MAP && s[72..116] == Struct() && s[116..120] == STRS;
    assert Terminated(STRS, 0) by {
      assert STRS[3] == 0;
    }
    hide Terminated;
  }

  /** The error codes, as libfdt.h numbers them. */
  lemma ErrorCodes()
    ensures NOTFOUND == -1 && EXISTS == -2 && NOSPACE == -3 && BADOFFSET == -4 && BADSTATE == -7
    ensures TRUNCATED == -8 && BADMAGIC == -9 && BADVERSION == -10 && BADSTRUCTURE == -11 && INTERNAL == -13
  {
  }

  /** And its tree is the one described. */
  lemma SampleDecodes()
    ensures DecodesTo(VIEW, TREE)
  {
    assert IsStr(STRS, 0, [0x72, 0x65, 0x67]) by {
      assert STRS[0..3] == [0x72, 0x65, 0x67];
    }
    NameIs(STRS, 0, [0x72, 0x65, 0x67]);
    hide NameAt, IsStr, Terminated;
    BodyEvents();
    TreeEvents();
  }

  lemma BodyEvents()
    ensures Events(BODY, STRS) ==
      [EBegin([]), EProp(NameAt(STRS, 0), [0x2a, 0x2b]), EBegin(NAME), EEnd, EEnd]
  {
    hide NameAt;
    var a, b, c: seq<Token> := [Begin([])], [Prop(0, [0x2a, 0x2b])], [Begin(NAME)];
    var d: seq<Token> := [EndNode];
    assert BODY == a + b + c + d + d;
    EventsConcat(a + b + c + d, d, STRS);
    EventsConcat(a + b + c, d, STRS);
    EventsConcat(a + b, c, STRS);
    EventsConcat(a, b, STRS);
    EventsOne(Begin([]), STRS);
    EventsOne(Prop(0, [0x2a, 0x2b]), STRS);
    EventsOne(Begin(NAME), STRS);
    EventsOne(EndNode, STRS);
    hide Events;
  }

  lemma TreeEvents()
    ensures Flat(TREE) == [EBegin([]), EProp([0x72, 0x65, 0x67], [0x2a, 0x2b]), EBegin(NAME), EEnd, EEnd]
  {
    var n := Node(NAME, [], []);
    assert FlatAll([]) == [];
    assert Flat(n) == [EBegin(NAME), EEnd];
    FlatAllOne(n);
    hide FlatAll;
  }
}
