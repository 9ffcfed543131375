/** The JavaScript lifting of the Wasm interop operations (WasmLifter.swift).

    Each static `lift*` function concatenates operand texts and payload into one JavaScript
    expression. An `Expression` is modelled by its text; the expression kind it is tagged
    with (`CallExpression`, `MemberExpression`) is not part of this model. Integers are
    rendered the way Swift's `String(_:)` renders them: decimal digits, a leading `-` for
    negative values. Each lifter has a decoder as its partner: it recovers the operands and
    the payload from the text, so the lifting loses no information (for the instantiation,
    provided no operand text contains a comma). */
module WasmLifter {
  import opened Wrappers
  import opened WasmOperations

  // ----- decimal rendering of integers -----

  predicate IsDigit(c: char) {
    '0' <= c <= '9'
  }

  predicate AllDigits(s: string) {
    forall i :: 0 <= i < |s| ==> IsDigit(s[i])
  }

  function DigitChar(d: nat): (c: char)
    requires d < 10
    ensures IsDigit(c) && c as int - '0' as int == d
  {
    ('0' as int + d) as char
  }

  /** The decimal digits of a natural number, most significant first, without leading zeros. */
  function NatDecimal(n: nat): (s: string)
    ensures |s| >= 1 && AllDigits(s)
    ensures |s| > 1 ==> s[0] != '0'
  {
    if n < 10 then [DigitChar(n)] else NatDecimal(n / 10) + [DigitChar(n % 10)]
  }

  /** Swift's `String(n)` for an integer. */
  function Decimal(n: int): (s: string)
    ensures |s| >= 1 && ',' !in s && ']' !in s && ')' !in s
    ensures n >= 0 ==> AllDigits(s)
  {
    if n < 0 then "-" + NatDecimal(-n) else NatDecimal(n)
  }

  function ParseNat(s: string): nat
    requires |s| >= 1 && AllDigits(s)
  {
    var last := s[|s| - 1] as int - '0' as int;
    if |s| == 1 then last else 10 * ParseNat(s[..|s| - 1]) + last
  }

  function ParseDecimal(s: string): Option<int> {
    if |s| >= 2 && s[0] == '-' && AllDigits(s[1..]) then Some(0 - ParseNat(s[1..]))
    else if |s| >= 1 && AllDigits(s) then Some(ParseNat(s))
    else None
  }

  lemma {:induction false} ParseNatDecimal(n: nat)
    ensures ParseNat(NatDecimal(n)) == n
  {
    if n >= 10 {
      var s := NatDecimal(n);
      assert s[..|s| - 1] == NatDecimal(n / 10);
      ParseNatDecimal(n / 10);
    }
  }

  /** Decimal rendering is decodable, hence injective: distinct integers print differently. */
  lemma ParseDecimalRoundTrip(n: int)
    ensures ParseDecimal(Decimal(n)) == Some(n)
  {
    if n < 0 {
      var s := "-" + NatDecimal(-n);
      assert s[1..] == NatDecimal(-n);
      ParseNatDecimal(-n);
    } else {
      ParseNatDecimal(n);
      var s := NatDecimal(n);
      assert s[0] != '-';
    }
  }

  // ----- joining and splitting -----

  /** Swift's `joined(separator:)`. */
  function Join(parts: seq<string>, sep: string): string {
    if |parts| == 0 then ""
    else if |parts| == 1 then parts[0]
    else parts[0] + sep + Join(parts[1..], sep)
  }

  function IndexOf(s: string, c: char): (i: nat)
    requires c in s
    ensures i < |s| && s[i] == c && c !in s[..i]
  {
    if s[0] == c then 0 else 1 + IndexOf(s[1..], c)
  }

  /** Cuts the text at every occurrence of `sep`; the partner of `Join` with a one-character separator. */
  function Split(s: string, sep: char): (parts: seq<string>)
    ensures |parts| >= 1
    decreases |s|
  {
    if sep !in s then [s]
    else
      var i := IndexOf(s, sep);
      [s[..i]] + Split(s[i + 1..], sep)
  }

  /** The first occurrence of `c` in `a + [c] + rest` is the one after `a` when `a` has none. */
  lemma {:induction false} IndexOfAfterPrefix(a: string, c: char, rest: string)
    requires c !in a
    ensures IndexOf(a + [c] + rest, c) == |a|
  {
    if a != [] {
      assert (a + [c] + rest)[1..] == a[1..] + [c] + rest;
      IndexOfAfterPrefix(a[1..], c, rest);
    }
  }

  lemma {:induction false} SplitJoin(parts: seq<string>, sep: char)
    requires |parts| >= 1
    requires forall k :: 0 <= k < |parts| ==> sep !in parts[k]
    ensures Split(Join(parts, [sep]), sep) == parts
  {
    if |parts| > 1 {
      var rest := Join(parts[1..], [sep]);
      var s := parts[0] + [sep] + rest;
      assert s[|parts[0]|] == sep;
      IndexOfAfterPrefix(parts[0], sep, rest);
      assert s[..|parts[0]|] == parts[0];
      assert s[|parts[0]| + 1..] == rest;
      SplitJoin(parts[1..], sep);
    }
  }

  // ----- the byte list of a memory write -----

  /** `bytes.map { String($0) }`. */
  function ByteTexts(bytes: seq<uint8>): (ts: seq<string>)
    ensures |ts| == |bytes|
    ensures forall k :: 0 <= k < |bytes| ==> ts[k] == Decimal(bytes[k])
  {
    if bytes == [] then [] else [Decimal(bytes[0])] + ByteTexts(bytes[1..])
  }

  /** `bytes.map { String($0) }.joined(separator: ",")`. */
  function RenderBytes(bytes: seq<uint8>): string {
    Join(ByteTexts(bytes), ",")
  }

  function ParseAll(texts: seq<string>): Option<seq<int>> {
    if texts == [] then Some([])
    else match (ParseDecimal(texts[0]), ParseAll(texts[1..]))
      case (Some(v), Some(vs)) => Some([v] + vs)
      case _ => None
  }

  function ParseBytes(s: string): Option<seq<int>> {
    if s == "" then Some([]) else ParseAll(Split(s, ','))
  }

  lemma {:induction false} ParseAllByteTexts(bytes: seq<uint8>)
    ensures ParseAll(ByteTexts(bytes)) == Some(bytes)
  {
    if bytes != [] {
      var rest := bytes[1..];
      ParseDecimalRoundTrip(bytes[0]);
      ParseAllByteTexts(rest);
      ParseAllCons(Decimal(bytes[0]), ByteTexts(rest), bytes[0], rest);
      assert ByteTexts(bytes) == [Decimal(bytes[0])] + ByteTexts(rest);
      assert [bytes[0] as int] + rest == bytes;
    }
  }

  lemma ParseAllCons(t: string, ts: seq<string>, v: int, vs: seq<int>)
    requires ParseDecimal(t) == Some(v) && ParseAll(ts) == Some(vs)
    ensures ParseAll([t] + ts) == Some([v] + vs)
  {
    assert ([t] + ts)[1..] == ts;
  }

  /** The rendered byte list holds exactly |bytes| comma-separated decimal numbers, in input
      order, each the decimal text of one byte. */
  lemma RenderBytesRoundTrip(bytes: seq<uint8>)
    ensures |bytes| >= 1 ==> |Split(RenderBytes(bytes), ',')| == |bytes|
    ensures |bytes| >= 1 ==> forall k :: 0 <= k < |bytes| ==>
      Split(RenderBytes(bytes), ',')[k] == Decimal(bytes[k]) && 0 <= bytes[k] <= 255
    ensures ParseBytes(RenderBytes(bytes)) == Some(bytes)
  {
    var ts := ByteTexts(bytes);
    if |bytes| >= 1 {
      SplitJoin(ts, ',');
      assert RenderBytes(bytes) != "" by { assert |Join(ts, ",")| >= |ts[0]|; }
      ParseAllByteTexts(bytes);
    }
  }

  // ----- the import list of an instantiation -----

  /** Each text with the character `sp` in front. */
  function Spaced(ts: seq<string>, sp: char): (r: seq<string>)
    ensures |r| == |ts|
    ensures forall k :: 0 <= k < |ts| ==> r[k] == [sp] + ts[k]
  {
    if ts == [] then [] else [[sp] + ts[0]] + Spaced(ts[1..], sp)
  }

  /** Each text without its leading `sp`, if it has one. */
  function Unspaced(ts: seq<string>, sp: char): (r: seq<string>)
    ensures |r| == |ts|
    ensures forall k :: 0 <= k < |ts| ==> r[k] == if |ts[k]| >= 1 && ts[k][0] == sp then ts[k][1..] else ts[k]
  {
    if ts == [] then []
    else [if |ts[0]| >= 1 && ts[0][0] == sp then ts[0][1..] else ts[0]] + Unspaced(ts[1..], sp)
  }

  lemma UnspacedSpaced(ts: seq<string>, sp: char)
    ensures Unspaced(Spaced(ts, sp), sp) == ts
  {
    forall k | 0 <= k < |ts|
      ensures Unspaced(Spaced(ts, sp), sp)[k] == ts[k]
    {
      assert Spaced(ts, sp)[k][1..] == ts[k];
    }
  }

  /** Joining with the two-character separator `c sp` is joining with `c` after putting `sp`
      in front of every text. */
  lemma {:induction false} SpacedJoin(ts: seq<string>, c: char, sp: char)
    requires |ts| >= 1
    ensures [sp] + Join(ts, [c, sp]) == Join(Spaced(ts, sp), [c])
  {
    if |ts| > 1 {
      SpacedJoin(ts[1..], c, sp);
      assert Spaced(ts, sp)[1..] == Spaced(ts[1..], sp);
      assert [sp] + Join(ts, [c, sp]) == ([sp] + ts[0]) + [c] + ([sp] + Join(ts[1..], [c, sp]));
    }
  }

  lemma JoinAsSpaced(ts: seq<string>, c: char, sp: char)
    requires |ts| >= 1
    ensures Join(ts, [c, sp]) == Join([ts[0]] + Spaced(ts[1..], sp), [c])
  {
    var parts := [ts[0]] + Spaced(ts[1..], sp);
    if |ts| == 1 {
      assert |parts| == 1 && parts[0] == ts[0];
    } else {
      var rest := Join(ts[1..], [c, sp]);
      SpacedJoin(ts[1..], c, sp);
      assert parts[1..] == Spaced(ts[1..], sp);
      assert Join(parts, [c]) == parts[0] + [c] + Join(parts[1..], [c]);
      assert Join(ts, [c, sp]) == ts[0] + [c, sp] + rest;
      Regroup(ts[0], c, sp, rest);
    }
  }

  lemma Regroup(a: string, c: char, sp: char, rest: string)
    ensures a + [c, sp] + rest == a + [c] + ([sp] + rest)
  {
    assert [c, sp] == [c] + [sp];
  }

  /** The import list of an instantiation, read back: cut at the commas, then drop the space
      that `joined(separator: ", ")` put after each comma. */
  function SplitImports(s: string): seq<string> {
    var parts := Split(s, ',');
    [parts[0]] + Unspaced(parts[1..], ' ')
  }

  lemma SplitImportsOfJoin(imports: seq<string>)
    requires |imports| >= 1
    requires forall k :: 0 <= k < |imports| ==> ',' !in imports[k]
    ensures SplitImports(Join(imports, ", ")) == imports
  {
    var tail := imports[1..];
    var parts := [imports[0]] + Spaced(tail, ' ');
    assert ", " == [',', ' '];
    JoinAsSpaced(imports, ',', ' ');
    NoCommaAfterSpacing(imports[0], tail);
    SplitJoin(parts, ',');
    assert parts[1..] == Spaced(tail, ' ');
    UnspacedSpaced(tail, ' ');
  }

  lemma NoCommaAfterSpacing(first: string, tail: seq<string>)
    requires ',' !in first
    requires forall k :: 0 <= k < |tail| ==> ',' !in tail[k]
    ensures forall k :: 0 <= k < 1 + |tail| ==> ',' !in ([first] + Spaced(tail, ' '))[k]
  {
    var parts := [first] + Spaced(tail, ' ');
    forall k | 0 <= k < |parts|
      ensures ',' !in parts[k]
    {
      if k > 0 {
        assert parts[k] == [' '] + tail[k - 1];
      }
    }
  }

  /** Two import lists that lift to the same text: the list is not recoverable when an import
      text itself contains `, `. */
  lemma ImportTextsWithCommaCollide()
    ensures LiftInstantiateWasm("m", ["a, b"]) == LiftInstantiateWasm("m", ["a", "b"])
  {
  }

  // ----- the five lifting functions -----

  function LiftInstantiateWasm(wasmBinary: string, imports: seq<string>): (r: string)
    ensures imports == [] ==> r == "WebAssembly.instantiate(" + wasmBinary + ")"
    ensures imports != [] ==>
      r == "WebAssembly.instantiate(" + wasmBinary + ", { imports: {" + Join(imports, ", ") + "} }" + ")"
  {
    var importArgs := if imports == [] then "" else ", { imports: {" + Join(imports, ", ") + "} }";
    "WebAssembly.instantiate(" + wasmBinary + importArgs + ")"
  }

  /** The member access `<instance>.exports['<name>']`: exactly these four pieces, in order. */
  function LiftGetWasmExport(instance: string, exportName: string): (r: string)
    ensures |r| == |instance| + 12 + |exportName|
    ensures r[..|instance|] == instance
    ensures r[|instance|..|instance| + 10] == ".exports['"
    ensures r[|instance| + 10..|r| - 2] == exportName
    ensures r[|r| - 2..] == "']"
  {
    instance + ".exports['" + exportName + "']"
  }

  /** The subscript `<instance>.memory[<index>]`, the index in decimal. */
  function LiftGetWasmMemory(instance: string, memoryIndex: int64): (r: string)
    ensures |r| == |instance| + 9 + |Decimal(memoryIndex)|
    ensures r[..|instance|] == instance
    ensures r[|instance|..|instance| + 8] == ".memory["
    ensures r[|instance| + 8..|r| - 1] == Decimal(memoryIndex)
    ensures r[|r| - 1] == ']'
  {
    instance + ".memory[" + Decimal(memoryIndex) + "]"
  }

  /** The call `new Uint8Array(<memory>.buffer).set([<bytes>], <offset>)`. */
  function LiftWriteWasmMemory(memory: string, offset: int64, bytes: seq<uint8>): (r: string)
    ensures var prefix := "new Uint8Array(" + memory + ".buffer).set([";
      && |r| == |prefix| + |RenderBytes(bytes)| + 3 + |Decimal(offset)| + 1
      && r[..|prefix|] == prefix
      && r[|prefix|..|prefix| + |RenderBytes(bytes)|] == RenderBytes(bytes)
      && r[|prefix| + |RenderBytes(bytes)|..|r| - 1] == "], " + Decimal(offset)
      && r[|r| - 1] == ')'
  {
    var bytesStr := RenderBytes(bytes);
    var arrayExpr := "new Uint8Array(" + memory + ".buffer)";
    var r := arrayExpr + ".set([" + bytesStr + "], " + Decimal(offset) + ")";
    Regroup4(arrayExpr + ".set([" + bytesStr, "], ", Decimal(offset), ")");
    Pieces(arrayExpr + ".set([", bytesStr, "], " + Decimal(offset), ')');
    assert arrayExpr + ".set([" == "new Uint8Array(" + memory + ".buffer).set([";
    r
  }

  lemma Regroup4(x: string, t: string, d: string, c: string)
    ensures x + t + d + c == x + (t + d) + c
  {
  }

  /** Where the pieces of `p + m + t + [c]` sit. */
  lemma Pieces(p: string, m: string, t: string, c: char)
    ensures var r := p + m + t + [c];
      r[..|p|] == p && r[|p|..|p| + |m|] == m && r[|p| + |m|..|r| - 1] == t && r[|r| - 1] == c
  {
  }

  /** The member access `<instance>.globals['<name>']`: exactly these four pieces, in order. */
  function LiftGetWasmGlobal(instance: string, globalName: string): (r: string)
    ensures |r| == |instance| + 12 + |globalName|
    ensures r[..|instance|] == instance
    ensures r[|instance|..|instance| + 10] == ".globals['"
    ensures r[|instance| + 10..|r| - 2] == globalName
    ensures r[|r| - 2..] == "']"
  {
    instance + ".globals['" + globalName + "']"
  }

  // ----- decoders: the payload is recoverable from the lifted text -----

  /** Reads the binary and the imports back out of
      `WebAssembly.instantiate(<binary>)` or `WebAssembly.instantiate(<binary>, { imports: {<imports>} })`. */
  function DecodeInstantiateWasm(text: string): Option<(string, seq<string>)> {
    match Between(text, "WebAssembly.instantiate(", ')')
    case Some(body) => DecodeInstantiateBody(body)
    case None => None
  }

  /** Splits the arguments at the first comma: the binary before it, the import object after. */
  function DecodeInstantiateBody(body: string): Option<(string, seq<string>)> {
    if ',' !in body then Some((body, []))
    else
      var i := IndexOf(body, ',');
      match Framed(body[i..], ", { imports: {", "} }")
      case Some(list) => Some((body[..i], SplitImports(list)))
      case None => None
  }

  /** The text between a known opening and a known closing piece, if the text has that shape. */
  function Framed(text: string, open: string, close: string): Option<string> {
    if |text| >= |open| + |close| && text[..|open|] == open && text[|text| - |close|..] == close
    then Some(text[|open|..|text| - |close|])
    else None
  }

  lemma FramedOfShape(open: string, middle: string, close: string)
    ensures Framed(open + middle + close, open, close) == Some(middle)
  {
    var text := open + middle + close;
    assert text[..|open|] == open;
    assert text[|text| - |close|..] == close;
    assert text[|open|..|text| - |close|] == middle;
  }

  /** In `bin + args` with no comma in `bin` and a comma opening `args`, the first comma is
      the one that starts `args`. */
  lemma FirstCommaAt(bin: string, args: string)
    requires ',' !in bin && |args| >= 1 && args[0] == ','
    ensures ',' in bin + args && IndexOf(bin + args, ',') == |bin|
    ensures (bin + args)[..|bin|] == bin && (bin + args)[|bin|..] == args
  {
    assert bin + args == bin + [','] + args[1..];
    IndexOfAfterPrefix(bin, ',', args[1..]);
  }

  lemma DecodeInstantiateBodyOfShape(wasmBinary: string, joined: string)
    requires ',' !in wasmBinary
    ensures DecodeInstantiateBody(wasmBinary + (", { imports: {" + joined + "} }")) ==
      Some((wasmBinary, SplitImports(joined)))
  {
    var args := ", { imports: {" + joined + "} }";
    assert args[0] == ',';
    FirstCommaAt(wasmBinary, args);
    FramedOfShape(", { imports: {", joined, "} }");
  }

  lemma LiftInstantiateWasmRoundTrip(wasmBinary: string, imports: seq<string>)
    requires ',' !in wasmBinary
    requires forall k :: 0 <= k < |imports| ==> ',' !in imports[k]
    ensures DecodeInstantiateWasm(LiftInstantiateWasm(wasmBinary, imports)) == Some((wasmBinary, imports))
  {
    var prefix := "WebAssembly.instantiate(";
    if imports == [] {
      assert LiftInstantiateWasm(wasmBinary, imports) == prefix + wasmBinary + [')'];
      BetweenOfShape(prefix, wasmBinary, ')');
    } else {
      var joined := Join(imports, ", ");
      var body := wasmBinary + (", { imports: {" + joined + "} }");
      assert LiftInstantiateWasm(wasmBinary, imports) == prefix + body + [')'];
      BetweenOfShape(prefix, body, ')');
      DecodeInstantiateBodyOfShape(wasmBinary, joined);
      SplitImportsOfJoin(imports);
    }
  }

  /** Reads the export name back out of `<instance>.exports['<name>']`. */
  function DecodeGetWasmExport(instance: string, text: string): Option<string> {
    match Between(text, instance + ".exports['", ']')
    case Some(body) => if |body| >= 1 && body[|body| - 1] == '\'' then Some(body[..|body| - 1]) else None
    case None => None
  }

  lemma LiftGetWasmExportRoundTrip(instance: string, exportName: string)
    ensures DecodeGetWasmExport(instance, LiftGetWasmExport(instance, exportName)) == Some(exportName)
  {
    var body := exportName + "'";
    assert LiftGetWasmExport(instance, exportName) == (instance + ".exports['") + body + [']'];
    BetweenOfShape(instance + ".exports['", body, ']');
    assert body[..|body| - 1] == exportName;
  }

  /** Reads the global's name back out of `<instance>.globals['<name>']`. */
  function DecodeGetWasmGlobal(instance: string, text: string): Option<string> {
    match Between(text, instance + ".globals['", ']')
    case Some(body) => if |body| >= 1 && body[|body| - 1] == '\'' then Some(body[..|body| - 1]) else None
    case None => None
  }

  lemma LiftGetWasmGlobalRoundTrip(instance: string, globalName: string)
    ensures DecodeGetWasmGlobal(instance, LiftGetWasmGlobal(instance, globalName)) == Some(globalName)
  {
    var body := globalName + "'";
    assert LiftGetWasmGlobal(instance, globalName) == (instance + ".globals['") + body + [']'];
    BetweenOfShape(instance + ".globals['", body, ']');
    assert body[..|body| - 1] == globalName;
  }

  /** The text between a known prefix and a final closing character, if the text has that shape. */
  function Between(text: string, prefix: string, close: char): Option<string> {
    if |text| > |prefix| && text[..|prefix|] == prefix && text[|text| - 1] == close
    then Some(text[|prefix|..|text| - 1])
    else None
  }

  lemma BetweenOfShape(prefix: string, body: string, close: char)
    ensures Between(prefix + body + [close], prefix, close) == Some(body)
  {
    var text := prefix + body + [close];
    assert text[..|prefix|] == prefix;
    assert text[|prefix|..|text| - 1] == body;
  }

  /** Reads the memory index back out of `instance.memory[<index>]`. */
  function DecodeGetWasmMemory(instance: string, text: string): Option<int> {
    match Between(text, instance + ".memory[", ']')
    case Some(body) => ParseDecimal(body)
    case None => None
  }

  lemma LiftGetWasmMemoryRoundTrip(instance: string, memoryIndex: int64)
    ensures DecodeGetWasmMemory(instance, LiftGetWasmMemory(instance, memoryIndex)) == Some(memoryIndex as int)
  {
    assert LiftGetWasmMemory(instance, memoryIndex) == (instance + ".memory[") + Decimal(memoryIndex) + [']'];
    BetweenOfShape(instance + ".memory[", Decimal(memoryIndex), ']');
    ParseDecimalRoundTrip(memoryIndex);
  }

  /** Splits `<bytes>], <offset>` at its first `]` and reads both parts. */
  function DecodeWriteBody(body: string): Option<(int, seq<int>)> {
    if ']' !in body then None
    else
      var i := IndexOf(body, ']');
      var tail := body[i + 1..];
      if |tail| < 2 || tail[..2] != ", " then None
      else match (ParseBytes(body[..i]), ParseDecimal(tail[2..]))
        case (Some(bs), Some(off)) => Some((off, bs))
        case _ => None
  }

  /** Reads offset and bytes back out of `new Uint8Array(<memory>.buffer).set([<bytes>], <offset>)`. */
  function DecodeWriteWasmMemory(memory: string, text: string): Option<(int, seq<int>)> {
    match Between(text, "new Uint8Array(" + memory + ".buffer).set([", ')')
    case Some(body) => DecodeWriteBody(body)
    case None => None
  }

  lemma RenderBytesHasNoBracket(bytes: seq<uint8>)
    ensures ']' !in RenderBytes(bytes)
  {
    NoBracketInJoin(ByteTexts(bytes));
  }

  lemma {:induction false} NoBracketInJoin(ts: seq<string>)
    requires forall k :: 0 <= k < |ts| ==> ']' !in ts[k]
    ensures ']' !in Join(ts, ",")
  {
    if |ts| > 1 {
      NoBracketInJoin(ts[1..]);
      assert Join(ts, ",") == ts[0] + "," + Join(ts[1..], ",");
    }
  }

  lemma DecodeWriteBodyOfShape(b: string, d: string)
    requires ']' !in b
    ensures DecodeWriteBody(b + "], " + d) ==
      match (ParseBytes(b), ParseDecimal(d))
      case (Some(bs), Some(off)) => Some((off, bs))
      case _ => None
  {
    var body := b + "], " + d;
    assert body == b + [']'] + (", " + d);
    assert body[|b|] == ']';
    IndexOfAfterPrefix(b, ']', ", " + d);
    assert body[..|b|] == b;
    var tail := body[|b| + 1..];
    assert tail == ", " + d;
    assert tail[..2] == ", " && tail[2..] == d;
  }

  lemma LiftWriteWasmMemoryRoundTrip(memory: string, offset: int64, bytes: seq<uint8>)
    ensures DecodeWriteWasmMemory(memory, LiftWriteWasmMemory(memory, offset, bytes)) == Some((offset as int, bytes))
  {
    var prefix := "new Uint8Array(" + memory + ".buffer).set([";
    var b := RenderBytes(bytes);
    var d := Decimal(offset);
    assert LiftWriteWasmMemory(memory, offset, bytes) == prefix + (b + "], " + d) + [')'];
    BetweenOfShape(prefix, b + "], " + d, ')');
    RenderBytesHasNoBracket(bytes);
    DecodeWriteBodyOfShape(b, d);
    RenderBytesRoundTrip(bytes);
    ParseDecimalRoundTrip(offset);
  }
}
