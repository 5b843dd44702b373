/**
 The command lines sent to the symbolizers and the fixed buffers they are formatted into.
 */
module Commands {
  import opened Bytes
  import opened Grammar

  const ADDR2LINE_BUFFER: nat := 64
  const LLVM_BUFFER: nat := 16 * 1024
  const DUMMY_ADDRESS: nat := UPTR_RANGE - 1

  /** snprintf: the text as stored before its NUL, and the returned length, negative when no int can hold it. */
  function Snprintf(size: nat, text: string): (r: (string, int))
    requires size > 0
  {
    (if |text| < size then text else text[..size - 1], if |text| <= INT_MAX then |text| else -1)
  }

  function Hex(n: nat): string {
    "0x" + Numeral(n, 16)
  }

  /* ---------- addr2line ---------- */

  function Addr2LineText(offset: nat): string {
    Hex(offset) + "\n" + (Hex(DUMMY_ADDRESS) + "\n")
  }

  /** What Addr2LinePool::SendCommand passes on. */
  function Addr2LineCommand(offset: nat): string {
    Snprintf(ADDR2LINE_BUFFER, Addr2LineText(offset)).0
  }

  lemma Addr2LineCommandNotEmpty(offset: nat)
    ensures Addr2LineCommand(offset) != []
  {
  }

  function Power16(k: nat): nat {
    if k == 0 then 1 else 16 * Power16(k - 1)
  }

  lemma {:induction false} HexLength(n: nat, k: nat)
    requires k > 0 && n < Power16(k)
    ensures |Numeral(n, 16)| <= k
  {
    if n >= 16 {
      HexLength(n / 16, k - 1);
    }
  }

  /** How a symbolizer reads an address: in hexadecimal, after the two characters 0x. */
  function HexValue(line: string): Option<nat> {
    if |line| > 2 && line[..2] == "0x" && forall i :: 2 <= i < |line| ==> IsHexDigit(line[i])
    then Some(Value(line[2..], 16)) else None
  }

  lemma HexLine(n: nat)
    ensures Without(Hex(n), '\n') && Without(Hex(n), '"') && HexValue(Hex(n)) == Some(n)
  {
    assert Hex(n)[2..] == Numeral(n, 16) && Hex(n)[..2] == "0x";
    assert forall i :: 2 <= i < |Hex(n)| ==> Hex(n)[i] == Numeral(n, 16)[i - 2];
    NumeralValue(n, 16);
  }

  lemma NumeralSnoc(n: nat, d: nat)
    requires n > 0 && d < 16
    ensures Numeral(16 * n + d, 16) == Numeral(n, 16) + ["0123456789abcdef"[d]]
  {
    DigitsInOrder(d);
  }

  lemma {:induction false} AllOnes(k: nat)
    requires k > 0
    ensures Power16(k) > 1 && Numeral(Power16(k) - 1, 16) == seq(k, _ => 'f')
  {
    if k == 1 {
      DigitsInOrder(15);
      assert Power16(1) == 16 && Numeral(15, 16) == ['f'];
    } else {
      AllOnes(k - 1);
      NumeralSnoc(Power16(k - 1) - 1, 15);
    }
  }

  lemma DummyText()
    ensures Hex(DUMMY_ADDRESS) == "0xffffffffffffffff"
  {
    AllOnes(16);
    PowerOf16();
  }

  lemma PowerOf16()
    ensures Power16(16) == 0x1_0000_0000_0000_0000
  {
    assert Power16(4) == 0x1_0000 && Power16(8) == 0x1_0000_0000 && Power16(12) == 0x1_0000_0000_0000;
  }

  /**
   The addr2line command is never cut. It is these two lines, which read back as the offset and the
   dummy address, the largest of 64 bits and so none that the public interface can ask for.
   */
  lemma {:induction false} Addr2LineCommandWhole(offset: nat)
    requires offset < 0x1_0000_0000_0000_0000
    ensures var c := Addr2LineCommand(offset);
            && c == "0x" + Numeral(offset, 16) + "\n" + "0xffffffffffffffff\n"
            && |c| <= 38 < ADDR2LINE_BUFFER
            && HexValue(Token(c, "\n")) == Some(offset)
            && HexValue(Token(Rest(c, "\n"), "\n")) == Some(0xffff_ffff_ffff_ffff)
            && Rest(Rest(c, "\n"), "\n") == []
    ensures offset < 0x1_0000_0000 ==> offset != DUMMY_ADDRESS
  {
    hide Numeral, HexValue, Token, Rest;
    HexFits(offset);
    HexLine(offset);
    HexLine(DUMMY_ADDRESS);
    DummyText();
    var dummy := "0xffffffffffffffff";
    assert Addr2LineText(offset) == Hex(offset) + "\n" + (dummy + "\n");
    TokenOf(Hex(offset), '\n', dummy + "\n", "\n");
    assert dummy + "\n" == dummy + "\n" + "";
    TokenOf(dummy, '\n', "", "\n");
  }

  lemma HexFits(n: nat)
    requires n < 0x1_0000_0000_0000_0000
    ensures |Hex(n)| <= 18
  {
    PowerOf16();
    HexLength(n, 16);
  }

  /* ---------- llvm-symbolizer ---------- */

  /** `name` is the module, with a colon and the architecture when one is given. */
  function LlvmText(prefix: string, name: string, offset: nat): string {
    prefix + " " + ("\"" + (name + "\"" + (" " + (Hex(offset) + "\n"))))
  }

  /** What FormatAndSendCommand hands to its process: None when the buffer was found too small. */
  function LlvmCommand(text: string): Option<string> {
    var (stored, needed) := Snprintf(LLVM_BUFFER, text);
    if needed >= LLVM_BUFFER then None else Some(stored)
  }

  /**
   A command is submitted whole exactly when it fits. It is submitted whole or not at all
   exactly when its length fits an int: beyond that the length test lets a cut command pass.
   */
  lemma LlvmCommandWhole(text: string)
    ensures LlvmCommand(text) == Some(text) <==> |text| < 16384
    ensures LlvmCommand(text) == None <==> 16384 <= |text| <= 0x7fff_ffff
    ensures |text| > 0x7fff_ffff ==> LlvmCommand(text) == Some(text[..16383])
  {
  }

  /** Every request for a module with a name of at most 4096 characters, as long as a path may be, is submitted. */
  lemma {:induction false} PathFits(prefix: string, name: string, offset: nat)
    requires (prefix == "CODE" || prefix == "DATA") && |name| <= 4096 && offset < 0x1_0000_0000_0000_0000
    ensures var text := LlvmText(prefix, name, offset);
            |text| <= 4123 && LlvmCommand(text) == Some(text)
  {
    hide Hex;
    HexFits(offset);
    LlvmCommandWhole(LlvmText(prefix, name, offset));
  }

  /** A command that goes out cut: its name alone is longer than any int. */
  lemma LongNameIsCut()
    ensures exists name: string :: var text := LlvmText("CODE", name, 0);
              LlvmCommand(text).Some? && |LlvmCommand(text).value| == 16383 < |text|
  {
    var name := seq(0x8000_0000, _ => 'x');
    var text := LlvmText("CODE", name, 0);
    LlvmTextLength("CODE", name, 0);
    LlvmCommandWhole(text);
  }

  lemma LlvmTextLength(prefix: string, name: string, offset: nat)
    ensures |LlvmText(prefix, name, offset)| > |name|
  {
  }

  datatype Request = Request(prefix: string, name: string, offset: nat)

  /** How the symbolizer reads a command: prefix, quoted name, hexadecimal offset, or not at all. */
  function Decode(command: string): Option<Request> {
    var quoted := Rest(command, " ");
    if quoted == [] || quoted[0] != '"' then None
    else
      var after := Rest(quoted[1..], "\"");
      if after == [] || after[0] != ' ' then None
      else
        match HexValue(Token(after[1..], "\n"))
        case None => None
        case Some(offset) => Some(Request(Token(command, " "), Token(quoted[1..], "\""), offset))
  }

  /** What stands between the opening quote and the newline. */
  function Quoted(r: Request): string {
    r.name + "\"" + (" " + (Hex(r.offset) + "\n"))
  }

  lemma DecodeParts(r: Request)
    requires Without(r.prefix, ' ')
    ensures var c := LlvmText(r.prefix, r.name, r.offset);
            && Token(c, " ") == r.prefix && Rest(c, " ") == "\"" + Quoted(r)
            && Rest(c, " ")[0] == '"' && Rest(c, " ")[1..] == Quoted(r)
  {
    hide Hex;
    TokenOf(r.prefix, ' ', "\"" + Quoted(r), " ");
    assert ("\"" + Quoted(r))[1..] == Quoted(r);
  }

  lemma OffsetPart(offset: nat)
    ensures HexValue(Token(Hex(offset) + "\n", "\n")) == Some(offset)
  {
    hide Hex, HexValue;
    HexLine(offset);
    assert Hex(offset) + "\n" == Hex(offset) + "\n" + "";
    TokenOf(Hex(offset), '\n', "", "\n");
  }

  lemma QuotedParts(r: Request)
    ensures if Without(r.name, '"')
            then Token(Quoted(r), "\"") == r.name && Rest(Quoted(r), "\"") == " " + (Hex(r.offset) + "\n")
            else |Token(Quoted(r), "\"")| < |r.name|
  {
    hide Hex;
    if Without(r.name, '"') {
      TokenOf(r.name, '"', " " + (Hex(r.offset) + "\n"), "\"");
    } else {
      var i :| 0 <= i < |r.name| && r.name[i] == '"';
      assert Quoted(r)[i] == '"';
      assert Span(Quoted(r), "\"") <= i;
    }
  }

  /** The llvm command decodes to its request exactly when the name holds no quote. */
  lemma {:induction false} LlvmCommandDecodes(r: Request)
    requires Without(r.prefix, ' ')
    ensures Decode(LlvmText(r.prefix, r.name, r.offset)) == Some(r) <==> Without(r.name, '"')
  {
    hide Hex, HexValue, Token, Rest, LlvmText, Quoted;
    DecodeParts(r);
    QuotedParts(r);
    OffsetPart(r.offset);
    var offset := Hex(r.offset) + "\n";
    assert (" " + offset)[0] == ' ' && (" " + offset)[1..] == offset;
  }

  lemma LineIsToken(line: string)
    ensures Token(line + "\n", "\n") == line <==> Without(line, '\n')
  {
    if Without(line, '\n') {
      assert line + "\n" == line + "\n" + "";
      TokenOf(line, '\n', "", "\n");
    } else {
      var i :| 0 <= i < |line| && line[i] == '\n';
      assert (line + "\n")[i] == '\n';
      assert Span(line + "\n", "\n") <= i;
    }
  }

  /** It is one line, so that one reply answers it, exactly when neither part holds a newline. */
  lemma {:induction false} LlvmCommandIsOneLine(r: Request)
    ensures var c := LlvmText(r.prefix, r.name, r.offset);
            Token(c, "\n") == c[..|c| - 1] <==> Without(r.prefix, '\n') && Without(r.name, '\n')
  {
    hide Hex, Token;
    var c := LlvmText(r.prefix, r.name, r.offset);
    var tail := "\" " + Hex(r.offset);
    var line := r.prefix + (" \"" + (r.name + tail));
    assert c == line + "\n" && c[..|c| - 1] == line;
    LineIsToken(line);
    HexLine(r.offset);
    WithoutParts(r.prefix, " \"" + (r.name + tail), '\n');
    WithoutParts(" \"", r.name + tail, '\n');
    WithoutParts(r.name, tail, '\n');
    WithoutParts("\" ", Hex(r.offset), '\n');
  }
}
