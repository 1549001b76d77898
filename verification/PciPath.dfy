/**
 PCI locations as text: slot and function packed in one byte as section 3.2.2.3.2 of the PCI
 Local Bus Specification 3.0 lays out, addresses, and paths of slots.
 */
module PciPaths {
  import opened Prelude

  // ---------------------------------------------------------------- slot and function in one byte

  /** Five bits of slot above three bits of function. */
  datatype SlotFn = SlotFn(bits: bv8) {
    function Slot(): bv8 { bits >> 3 }
    function Function(): bv8 { bits & 7 }
  }

  const SLOT_MAX: int := 31
  const FUNCTION_MAX: int := 7

  function Pack(slot: bv8, func: bv8): SlotFn {
    SlotFn((slot << 3) | func)
  }

  /** `SlotFn::new` on numbers of any width. */
  function NewSlotFn(slot: int, func: int): Option<SlotFn> {
    if 0 <= slot <= SLOT_MAX && 0 <= func <= FUNCTION_MAX then Some(Pack(slot as bv8, func as bv8)) else None
  }

  lemma PackedFields(slot: bv8, func: bv8)
    requires slot <= 31 && func <= 7
    ensures Pack(slot, func).Slot() == slot && Pack(slot, func).Function() == func
  {
  }

  lemma FieldsPacked(x: SlotFn)
    ensures x.Slot() <= 31 && x.Function() <= 7 && Pack(x.Slot(), x.Function()) == x
  {
  }

  /** The byte is eight times the slot, plus the function. */
  lemma BitsLayout(x: SlotFn)
    ensures x.bits == x.Slot() * 8 + x.Function()
  {
  }

  lemma ByteAsInt(b: bv8)
    ensures 0 <= b as int < 256 && (b as int) as bv8 == b
    ensures b <= 31 <==> b as int <= 31
    ensures b <= 7 <==> b as int <= 7
  {
  }

  /** The two numbers of a location make it again. */
  lemma FieldsMakeSlotFn(x: SlotFn)
    ensures 0 <= x.Slot() as int <= 31 && 0 <= x.Function() as int <= 7
    ensures NewSlotFn(x.Slot() as int, x.Function() as int) == Some(x)
  {
    FieldsPacked(x);
    hide SlotFn.Slot, SlotFn.Function, Pack;
    ByteAsInt(x.Slot());
    ByteAsInt(x.Function());
  }

  lemma SmallAsByte(n: int)
    requires 0 <= n < 32
    ensures (n as bv8) as int == n
    ensures n as bv8 <= 31 && (n <= 7 ==> n as bv8 <= 7)
  {
    ByteAsInt(n as bv8);
  }

  /** `SlotFn::new` accepts exactly the numbers in range, and keeps them. */
  lemma SlotFnHasFields(slot: int, func: int)
    ensures NewSlotFn(slot, func).Some? <==> 0 <= slot < 32 && 0 <= func < 8
    ensures var x := NewSlotFn(slot, func);
      x.Some? ==> slot == x.value.Slot() as int && func == x.value.Function() as int
  {
    if NewSlotFn(slot, func).Some? {
      SmallAsByte(slot);
      SmallAsByte(func);
      PackedFields(slot as bv8, func as bv8);
      hide SlotFn.Slot, SlotFn.Function, Pack;
    }
  }

  // ---------------------------------------------------------------- hexadecimal numbers

  function Digit(d: int): char
    requires 0 <= d < 16
  {
    "0123456789abcdef"[d]
  }

  function DigitValue(c: char): (r: Option<int>)
    ensures r.Some? ==> 0 <= r.value < 16
  {
    if '0' <= c <= '9' then Some(c as int - '0' as int)
    else if 'a' <= c <= 'f' then Some(c as int - 'a' as int + 10)
    else if 'A' <= c <= 'F' then Some(c as int - 'A' as int + 10)
    else None
  }

  function Pow16(width: nat): nat {
    if width == 0 then 1 else 16 * Pow16(width - 1)
  }

  /** `{:0width$x}` of a number that fits: exactly `width` digits. */
  function Hex(n: nat, width: nat): (s: string)
    ensures |s| == width
  {
    if width == 0 then "" else Hex(n / 16, width - 1) + [Digit(n % 16)]
  }

  /** The value of a string of digits; an empty one has none. */
  function Digits(s: string): (r: Option<int>)
    ensures r.Some? ==> r.value >= 0
  {
    if s == "" then None
    else
      var front, last := s[..|s| - 1], DigitValue(s[|s| - 1]);
      if last.None? then None
      else if front == "" then Some(last.value)
      else if Digits(front).None? then None
      else Some(16 * Digits(front).value + last.value)
  }

  /** `from_str_radix(16)` of a signed number; values too wide for the type are rejected later. */
  function ParseSigned(s: string): Option<int> {
    if s == "" then None
    else if s[0] == '-' then
      match Digits(s[1..])
      case Some(n) => Some(-n)
      case None => None
    else ParseUnsigned(s)
  }

  /** `from_str_radix(16)` of an unsigned number: a plus sign is allowed, a minus sign is not. */
  function ParseUnsigned(s: string): (r: Option<int>)
    ensures r.Some? ==> r.value >= 0
  {
    if s != "" && s[0] == '+' then Digits(s[1..]) else Digits(s)
  }

  lemma DigitRoundTrip(d: int)
    requires 0 <= d < 16
    ensures DigitValue(Digit(d)) == Some(d)
    ensures Digit(d) !in {'.', ':', '/', '+', '-'}
  {
  }

  /** A digit in either case, and nothing else, has its value. */
  lemma DigitValueExactly(c: char, d: int)
    requires 0 <= d < 16
    ensures DigitValue(c) == Some(d) <==> c == "0123456789abcdef"[d] || c == "0123456789ABCDEF"[d]
  {
  }

  /** One sign may stand in front of the digits; an unsigned number takes no minus. */
  lemma SignedText(digits: string)
    requires digits != "" && digits[0] != '+' && digits[0] != '-'
    ensures ParseUnsigned(digits) == ParseSigned(digits) == ParseUnsigned("+" + digits) == ParseSigned("+" + digits)
    ensures ParseUnsigned("-" + digits).None?
    ensures ParseSigned("-" + digits) == var n := ParseSigned(digits); if n.None? then None else Some(-n.value)
  {
    assert ("+" + digits)[1..] == digits && ("-" + digits)[1..] == digits;
    MinusIsNoDigit(digits);
  }

  lemma {:induction false} MinusIsNoDigit(s: string)
    ensures Digits("-" + s).None?
  {
    if s != "" {
      var t := "-" + s;
      assert t[..|t| - 1] == "-" + s[..|s| - 1];
      MinusIsNoDigit(s[..|s| - 1]);
    }
  }

  lemma DigitsAppend(front: string, d: int)
    requires 0 <= d < 16 && (front == "" || Digits(front).Some?)
    ensures Digits(front + [Digit(d)]) == Some((if front == "" then 0 else 16 * Digits(front).value) + d)
    ensures Plain(front) ==> Plain(front + [Digit(d)])
  {
    DigitRoundTrip(d);
    var s := front + [Digit(d)];
    assert s[..|s| - 1] == front;
  }

  predicate Plain(s: string) {
    forall c <- s :: c !in {'.', ':', '/', '+', '-'}
  }

  /** Printed numbers parse back, and hold nothing but digits. */
  lemma {:induction false} HexRoundTrip(n: nat, width: nat)
    requires width > 0 && n < Pow16(width)
    ensures Digits(Hex(n, width)) == Some(n) && Plain(Hex(n, width))
    decreases width
  {
    var high, low := n / 16, n % 16;
    var front := Hex(high, width - 1);
    if width > 1 { HexRoundTrip(high, width - 1); }
    DigitsAppend(front, low);
  }

  lemma HexParses(n: nat, width: nat)
    requires width > 0 && n < Pow16(width)
    ensures ParseSigned(Hex(n, width)) == Some(n) && ParseUnsigned(Hex(n, width)) == Some(n)
  {
    HexRoundTrip(n, width);
    assert Hex(n, width)[0] in Hex(n, width);
  }

  // ---------------------------------------------------------------- splitting and joining

  /** `split`: always at least one part. */
  function Split(s: string, sep: char): (parts: seq<string>)
    ensures parts != []
  {
    if s == "" then [""]
    else
      var rest := Split(s[1..], sep);
      if s[0] == sep then [""] + rest else [[s[0]] + rest[0]] + rest[1..]
  }

  function Join(parts: seq<string>, sep: char): string
    requires parts != []
  {
    if |parts| == 1 then parts[0] else parts[0] + [sep] + Join(parts[1..], sep)
  }

  lemma {:induction false} SplitFirst(part: string, sep: char, rest: string)
    requires sep !in part
    ensures Split(part + [sep] + rest, sep) == [part] + Split(rest, sep)
    ensures Split(part, sep) == [part]
  {
    var s := part + [sep] + rest;
    if part == "" {
      assert s[1..] == rest;
    } else {
      assert s[1..] == part[1..] + [sep] + rest;
      SplitFirst(part[1..], sep, rest);
      assert part == [part[0]] + part[1..];
    }
  }

  /** Splitting undoes joining parts without the separator. */
  lemma {:induction false} SplitJoin(parts: seq<string>, sep: char)
    requires parts != [] && forall p <- parts :: sep !in p
    ensures Split(Join(parts, sep), sep) == parts
  {
    assert parts[0] in parts;
    if |parts| == 1 {
      SplitFirst(parts[0], sep, "");
    } else {
      SplitJoin(parts[1..], sep);
      SplitFirst(parts[0], sep, Join(parts[1..], sep));
    }
  }

  lemma {:induction false} JoinFrom(part: string, rest: seq<string>, sep: char)
    requires rest != []
    ensures Join([part] + rest, sep) == part + [sep] + Join(rest, sep)
  {
    assert ([part] + rest)[1..] == rest;
  }

  lemma JoinLonger(c: char, parts: seq<string>, sep: char)
    requires parts != []
    ensures Join([[c] + parts[0]] + parts[1..], sep) == [c] + Join(parts, sep)
  {
    if |parts| > 1 {
      JoinFrom([c] + parts[0], parts[1..], sep);
      assert [c] + (parts[0] + [sep] + Join(parts[1..], sep)) == ([c] + parts[0]) + [sep] + Join(parts[1..], sep);
    } else {
      assert [[c] + parts[0]] + parts[1..] == [[c] + parts[0]];
    }
  }

  /** Joining undoes splitting, so a string is accepted or not part by part. */
  lemma {:induction false} JoinSplit(s: string, sep: char)
    ensures Join(Split(s, sep), sep) == s
  {
    if s != "" {
      var rest := Split(s[1..], sep);
      JoinSplit(s[1..], sep);
      assert s == [s[0]] + s[1..];
      if s[0] == sep { JoinFrom("", rest, sep); } else { JoinLonger(s[0], rest, sep); }
    }
  }

  // ---------------------------------------------------------------- text of slots, addresses and paths

  function ShowSlotFn(x: SlotFn): string {
    Hex(x.Slot() as int, 2) + "." + Hex(x.Function() as int, 1)
  }

  /** `SlotFn::from_str`: a function part is optional. */
  function ParseSlotFn(s: string): Option<SlotFn> {
    var tokens := Split(s, '.');
    if |tokens| > 2 then None
    else
      var slot := ParseSigned(tokens[0]);
      var func := if |tokens| == 2 then ParseSigned(tokens[1]) else Some(0);
      if slot.None? || func.None? then None else NewSlotFn(slot.value, func.value)
  }

  lemma SplitTwo(a: string, b: string, sep: char)
    requires sep !in a && sep !in b
    ensures Split(a + [sep] + b, sep) == [a, b]
  {
    SplitFirst(a, sep, b);
    SplitFirst(b, sep, "");
  }

  /** What a printed number is to a parser. */
  lemma NumberText(n: nat, width: nat)
    requires 0 < width <= 4
    requires n < if width == 1 then 16 else if width == 2 then 256 else if width == 3 then 4096 else 65536
    ensures var s := Hex(n, width);
      && ParseSigned(s) == Some(n) && ParseUnsigned(s) == Some(n)
      && '.' !in s && ':' !in s && '/' !in s
  {
    assert Pow16(1) == 16 && Pow16(2) == 256 && Pow16(3) == 4096 && Pow16(4) == 65536;
    HexRoundTrip(n, width);
    HexParses(n, width);
  }

  lemma SlotFnText(x: SlotFn)
    ensures ParseSlotFn(ShowSlotFn(x)) == Some(x)
    ensures '/' !in ShowSlotFn(x) && ':' !in ShowSlotFn(x)
  {
    hide SlotFn.Slot, SlotFn.Function, NewSlotFn, ParseSigned, Hex, Split;
    FieldsMakeSlotFn(x);
    NumberText(x.Slot() as int, 2);
    NumberText(x.Function() as int, 1);
    SplitTwo(Hex(x.Slot() as int, 2), Hex(x.Function() as int, 1), '.');
  }

  /** The text is two digits, a dot and one digit. */
  lemma SlotFnShape(x: SlotFn)
    ensures |ShowSlotFn(x)| == 4 && ShowSlotFn(x)[2] == '.'
  {
  }

  /** The string is two numbers with a dot between them. */
  ghost predicate TwoNumbers(s: string, x: int, y: int) {
    exists a, b :: s == a + "." + b && '.' !in a && '.' !in b && ParseSigned(a) == Some(x) && ParseSigned(b) == Some(y)
  }

  lemma InRangeIsUnique(a: int, b: int, slot: int, func: int)
    requires 0 <= slot < 32 && 0 <= func < 8
    ensures NewSlotFn(a, b) == NewSlotFn(slot, func) <==> a == slot && b == func
  {
    SlotFnHasFields(a, b);
    SlotFnHasFields(slot, func);
    hide NewSlotFn, SlotFn.Slot, SlotFn.Function;
  }

  /** A string names a slot and function exactly when it is these two numbers, or the slot alone and function zero. */
  lemma SlotFnExactly(s: string, slot: int, func: int)
    requires 0 <= slot < 32 && 0 <= func < 8
    ensures ParseSlotFn(s) == NewSlotFn(slot, func) <==>
      ('.' !in s && ParseSigned(s) == Some(slot) && func == 0) || TwoNumbers(s, slot, func)
  {
    hide *;
    var tokens := Split(s, '.');
    TokensOf(s);
    if |tokens| == 1 {
      OneToken(s, slot, func);
    } else if |tokens| == 2 {
      TwoTokens(tokens[0], tokens[1], slot, func);
    } else {
      MoreTokens(s, slot, func);
    }
  }

  /** One token means no dot, two tokens one dot between them. */
  lemma TokensOf(s: string)
    ensures var tokens := Split(s, '.');
      && (|tokens| == 1 <==> '.' !in s)
      && (|tokens| == 2 ==> s == tokens[0] + "." + tokens[1] && '.' !in tokens[0] && '.' !in tokens[1])
  {
    hide Split, Join;
    var tokens := Split(s, '.');
    JoinSplit(s, '.');
    PartsPlain(s, '.');
    if |tokens| == 1 { JoinOne(tokens, '.'); }
    if |tokens| == 2 { JoinTwo(tokens, '.'); }
    if '.' !in s { SplitFirst(s, '.', ""); }
  }

  lemma OneToken(s: string, slot: int, func: int)
    requires 0 <= slot < 32 && 0 <= func < 8 && '.' !in s
    ensures ParseSlotFn(s) == NewSlotFn(slot, func) <==> ParseSigned(s) == Some(slot) && func == 0
    ensures !TwoNumbers(s, slot, func)
  {
    hide NewSlotFn, ParseSigned, Split;
    SplitFirst(s, '.', "");
    SlotFnHasFields(slot, func);
    var x := ParseSigned(s);
    if x.Some? { InRangeIsUnique(x.value, 0, slot, func); }
    forall a, b ensures s != a + "." + b { assert (a + "." + b)[|a|] == '.'; }
  }

  lemma TwoTokens(a: string, b: string, slot: int, func: int)
    requires 0 <= slot < 32 && 0 <= func < 8 && '.' !in a && '.' !in b
    ensures var s := a + "." + b;
      '.' in s && (ParseSlotFn(s) == NewSlotFn(slot, func) <==> TwoNumbers(s, slot, func))
  {
    hide NewSlotFn, ParseSigned, Split;
    var s := a + "." + b;
    assert s[|a|] == '.';
    SplitTwo(a, b, '.');
    SlotFnHasFields(slot, func);
    var x, y := ParseSigned(a), ParseSigned(b);
    if x.Some? && y.Some? { InRangeIsUnique(x.value, y.value, slot, func); }
    forall c, d | s == c + "." + d && '.' !in c && '.' !in d ensures c == a && d == b { SplitTwo(c, d, '.'); }
  }

  lemma MoreTokens(s: string, slot: int, func: int)
    requires 0 <= slot < 32 && 0 <= func < 8 && |Split(s, '.')| > 2
    ensures ParseSlotFn(s) != NewSlotFn(slot, func) && !TwoNumbers(s, slot, func)
  {
    hide NewSlotFn, ParseSigned, Split;
    SlotFnHasFields(slot, func);
    forall c, d | '.' !in c && '.' !in d ensures s != c + "." + d { SplitTwo(c, d, '.'); }
  }

  lemma {:induction false} PartsPlain(s: string, sep: char)
    ensures forall p <- Split(s, sep) :: sep !in p
  {
    if s != "" {
      PartsPlain(s[1..], sep);
      var rest := Split(s[1..], sep);
      assert rest[0] in rest && forall p <- rest[1..] :: p in rest;
    }
  }

  lemma JoinOne(parts: seq<string>, sep: char)
    requires |parts| == 1
    ensures Join(parts, sep) == parts[0]
  {
  }

  lemma JoinTwo(parts: seq<string>, sep: char)
    requires |parts| == 2
    ensures Join(parts, sep) == parts[0] + [sep] + parts[1]
  {
    assert Join(parts[1..], sep) == parts[1];
  }

  /** A part without a dot names function zero of its slot. */
  lemma BareSlotText(s: string)
    requires '.' !in s
    ensures ParseSlotFn(s) == ParseSlotFn(s + ".0")
  {
    hide NewSlotFn, ParseSigned, Split;
    SplitFirst(s, '.', "");
    SplitTwo(s, "0", '.');
    ZeroText();
    assert s + "." + "0" == s + ".0";
  }

  lemma ZeroText()
    ensures ParseSigned("0") == Some(0)
  {
    NumberText(0, 1);
    assert Hex(0, 1) == "0";
  }

  function ShowAll(path: seq<SlotFn>): (parts: seq<string>)
    ensures |parts| == |path| && forall i | 0 <= i < |path| :: parts[i] == ShowSlotFn(path[i])
  {
    if path == [] then [] else [ShowSlotFn(path[0])] + ShowAll(path[1..])
  }

  function ShowPath(path: seq<SlotFn>): string
    requires path != []
  {
    Join(ShowAll(path), '/')
  }

  /** `collect`: the first part that does not parse fails the whole. */
  function ParseAll(parts: seq<string>): (r: Option<seq<SlotFn>>)
    ensures r.Some? ==> |r.value| == |parts|
  {
    if parts == [] then Some([])
    else
      var first := ParseSlotFn(parts[0]);
      if first.None? then None
      else
        match ParseAll(parts[1..])
        case Some(rest) => Some([first.value] + rest)
        case None => None
  }

  function ParsePath(s: string): Option<seq<SlotFn>> {
    ParseAll(Split(s, '/'))
  }

  lemma {:induction false} ParseShown(path: seq<SlotFn>)
    ensures ParseAll(ShowAll(path)) == Some(path)
  {
    if path != [] {
      ParseShown(path[1..]);
      SlotFnText(path[0]);
      hide ParseSlotFn, ShowSlotFn;
      assert ShowAll(path)[1..] == ShowAll(path[1..]);
      assert [path[0]] + path[1..] == path;
    }
  }

  /** Every non-empty path parses back from its printed text to itself. */
  lemma PathRoundTrip(path: seq<SlotFn>)
    requires path != []
    ensures ParsePath(ShowPath(path)) == Some(path)
  {
    var parts := ShowAll(path);
    forall p <- parts ensures '/' !in p {
      var i :| 0 <= i < |parts| && parts[i] == p;
      SlotFnText(path[i]);
    }
    SplitJoin(parts, '/');
    ParseShown(path);
  }

  /** An accepted string names a non-empty path, and its canonical text names the same one. */
  lemma CanonicalText(s: string)
    requires ParsePath(s).Some?
    ensures ParsePath(s).value != [] && ParsePath(ShowPath(ParsePath(s).value)) == ParsePath(s)
  {
    PathRoundTrip(ParsePath(s).value);
  }

  /** Two accepted strings name the same path exactly when their canonical texts are equal. */
  lemma CanonicalTextDecides(s: string, t: string)
    requires ParsePath(s).Some? && ParsePath(t).Some?
    ensures ParsePath(s) == ParsePath(t) <==> ShowPath(ParsePath(s).value) == ShowPath(ParsePath(t).value)
  {
    CanonicalText(s);
    CanonicalText(t);
  }

  lemma {:induction false} ParseAllEach(parts: seq<string>)
    ensures ParseAll(parts).Some? <==> forall p <- parts :: ParseSlotFn(p).Some?
    ensures ParseAll(parts).Some? ==>
      forall i | 0 <= i < |parts| :: Some(ParseAll(parts).value[i]) == ParseSlotFn(parts[i])
  {
    hide ParseSlotFn;
    if parts != [] {
      ParseAllEach(parts[1..]);
      assert parts[0] in parts && forall p <- parts :: p == parts[0] || p in parts[1..];
    }
  }

  /** A string is accepted exactly when it is the join of parts that each name a slot, and names those in order. */
  lemma AcceptedPartByPart(s: string)
    ensures var parts := Split(s, '/');
      && Join(parts, '/') == s
      && (ParsePath(s).Some? <==> forall p <- parts :: ParseSlotFn(p).Some?)
      && (ParsePath(s).Some? ==> forall i | 0 <= i < |parts| :: Some(ParsePath(s).value[i]) == ParseSlotFn(parts[i]))
  {
    JoinSplit(s, '/');
    ParseAllEach(Split(s, '/'));
  }

  datatype Address = Address(domain: u16, bus: bv8, slotfn: SlotFn)

  function ShowAddress(a: Address): string {
    Hex(a.domain, 4) + ":" + Hex(a.bus as int, 2) + ":" + ShowSlotFn(a.slotfn)
  }

  /** `Address::from_str`: exactly three parts; domain and bus must fit their widths. */
  function ParseAddress(s: string): Option<Address> {
    var tokens := Split(s, ':');
    if |tokens| != 3 then None
    else
      var domain, bus, slotfn := ParseUnsigned(tokens[0]), ParseUnsigned(tokens[1]), ParseSlotFn(tokens[2]);
      if domain.None? || domain.value > U16_MAX || bus.None? || bus.value > 255 || slotfn.None? then None
      else Some(Address(domain.value, bus.value as bv8, slotfn.value))
  }

  lemma SplitThree(a: string, b: string, c: string, sep: char)
    requires sep !in a && sep !in b && sep !in c
    ensures Split(a + [sep] + b + [sep] + c, sep) == [a, b, c]
  {
    SplitTwo(b, c, sep);
    SplitFirst(a, sep, b + [sep] + c);
    assert a + [sep] + b + [sep] + c == a + [sep] + (b + [sep] + c);
  }

  /** The string is three parts with colons between them. */
  predicate ThreeParts(s: string, a: string, b: string, c: string) {
    s == a + ":" + b + ":" + c && ':' !in a && ':' !in b && ':' !in c
  }

  predicate AreParts(x: Address, a: string, b: string, c: string) {
    && ParseUnsigned(a) == Some(x.domain) && ParseSlotFn(c) == Some(x.slotfn)
    && ParseUnsigned(b).Some? && ParseUnsigned(b).value <= 255 && ParseUnsigned(b).value as bv8 == x.bus
  }

  /** A string is an address exactly when it is a domain, a bus and a slot, each in its range. */
  lemma AddressExactly(s: string, x: Address)
    ensures ParseAddress(s) == Some(x) <==> exists a, b, c :: ThreeParts(s, a, b, c) && AreParts(x, a, b, c)
  {
    hide *;
    AddressOfTokens(s, x);
    if |Split(s, ':')| == 3 { ThreeTokens(s); }
    forall a, b, c | ThreeParts(s, a, b, c) ensures Split(s, ':') == [a, b, c] { PartsAreTokens(s, a, b, c); }
  }

  lemma AddressOfTokens(s: string, x: Address)
    ensures var tokens := Split(s, ':');
      ParseAddress(s) == Some(x) <==> |tokens| == 3 && AreParts(x, tokens[0], tokens[1], tokens[2])
  {
    hide ParseUnsigned, ParseSlotFn, Split;
  }

  lemma ThreeTokens(s: string)
    requires |Split(s, ':')| == 3
    ensures var tokens := Split(s, ':'); ThreeParts(s, tokens[0], tokens[1], tokens[2])
  {
    hide Split, Join;
    JoinSplit(s, ':');
    PartsPlain(s, ':');
    JoinThree(Split(s, ':'), ':');
  }

  lemma PartsAreTokens(s: string, a: string, b: string, c: string)
    requires ThreeParts(s, a, b, c)
    ensures Split(s, ':') == [a, b, c]
  {
    hide Split;
    SplitThree(a, b, c, ':');
  }

  lemma JoinThree(parts: seq<string>, sep: char)
    requires |parts| == 3
    ensures Join(parts, sep) == parts[0] + [sep] + parts[1] + [sep] + parts[2]
  {
    assert Join(parts, sep) == parts[0] + [sep] + Join(parts[1..], sep);
    JoinTwo(parts[1..], sep);
  }

  /** Four digits of domain and two of bus, each with a colon behind, then the slot. */
  lemma AddressShape(a: Address)
    ensures |ShowAddress(a)| == 12 && ShowAddress(a)[4] == ':' == ShowAddress(a)[7]
    ensures ShowAddress(a)[8..] == ShowSlotFn(a.slotfn)
  {
    SlotFnShape(a.slotfn);
    hide Hex, ShowSlotFn;
  }

  lemma AddressRoundTrip(a: Address)
    ensures ParseAddress(ShowAddress(a)) == Some(a)
  {
    hide ShowSlotFn, ParseSlotFn, ParseUnsigned, Hex, Split;
    SlotFnText(a.slotfn);
    ByteAsInt(a.bus);
    NumberText(a.domain, 4);
    NumberText(a.bus as int, 2);
    SplitThree(Hex(a.domain, 4), Hex(a.bus as int, 2), ShowSlotFn(a.slotfn), ':');
  }
}
