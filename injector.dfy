/** The static-initializer patcher of `GadgetInjector`: it makes a class
    load a native library from its `<clinit>` method, working on the
    class's smali text as a list of lines. */
module GadgetInjector {
  import opened Base
  import opened KotlinText

  const ClinitSignature: string := "constructor <clinit>()V"
  const ClinitHeader: string := ".method static " + ClinitSignature

  /** Directives `findFirstInstruction` steps over. */
  const SkipPrefixes: seq<string> :=
    [".registers", ".locals", ".param", ".prologue", ".line", ".local", ".annotation"]

  /** The indentation of the lines the patcher writes inside a method. */
  const Indent: string := "    "

  /** `const-string <register>, "<libName>"`, indented. */
  function ConstStringLine(register: string, libName: string): string {
    Indent + ConstString(register, libName)
  }

  function ConstString(register: string, libName: string): string {
    "const-string " + register + ", \"" + libName + "\""
  }

  /** The call of `System.loadLibrary` with the name held in `register`, indented. */
  function LoadLibraryLine(register: string): string {
    Indent + LoadLibrary(register)
  }

  function LoadLibrary(register: string): string {
    "invoke-static {" + register + "}, Ljava/lang/System;->loadLibrary(Ljava/lang/String;)V"
  }

  /** The method block appended to a class that has no static initializer. */
  function FreshInitializer(libName: string): seq<string> {
    ["", ClinitHeader, Indent + ".locals 1", ConstStringLine("v0", libName), LoadLibraryLine("v0"),
     Indent + "return-void", ".end method"]
  }

  predicate IsClinitHeader(line: string) {
    StartsWith(line, ".method") && Contains(line, ClinitSignature)
  }

  predicate IsRegisterDeclaration(line: string) {
    StartsWith(TrimStart(line), ".registers") || StartsWith(TrimStart(line), ".locals")
  }

  /** `prefixes.none { t.startsWith(it) }`. */
  predicate NoneStartsWith(t: string, prefixes: seq<string>)
    decreases |prefixes|
  {
    |prefixes| == 0 || (!StartsWith(t, prefixes[0]) && NoneStartsWith(t, prefixes[1..]))
  }

  /** A text that starts with one of the prefixes fails `none`. */
  lemma {:induction false} StartsWithMember(t: string, prefixes: seq<string>, i: nat)
    requires i < |prefixes| && StartsWith(t, prefixes[i])
    ensures !NoneStartsWith(t, prefixes)
    decreases i
  {
    if i > 0 {
      StartsWithMember(t, prefixes[1..], i - 1);
    }
  }

  /** A line `findFirstInstruction` stops at: after trimming it is not
      empty, not a comment and not one of the skipped directives. */
  predicate IsInstruction(line: string) {
    var t := Trim(line);
    t != "" && !StartsWith(t, "#") && NoneStartsWith(t, SkipPrefixes)
  }

  /** `lines.indexOfFirst(P)` over the lines from index `from` on: the
      first such index whose line satisfies `P`, or -1. */
  function IndexOfFirst(lines: seq<string>, from: nat, P: string -> bool): (r: int)
    ensures r == -1 || from <= r < |lines|
    ensures r == -1 ==> forall j :: from <= j < |lines| ==> !P(lines[j])
    ensures r >= 0 ==> P(lines[r]) && forall j :: from <= j < r ==> !P(lines[j])
    decreases |lines| - from
  {
    if from >= |lines| then -1
    else if P(lines[from]) then from
    else IndexOfFirst(lines, from + 1, P)
  }

  /** The value of `findFirstInstruction(lines, methodStart)`: the first
      instruction line after `methodStart`, or `methodStart + 1` if there is none. */
  function FirstInstruction(lines: seq<string>, methodStart: nat): (r: nat)
    ensures r == methodStart + 1
         || (methodStart < r < |lines| && IsInstruction(lines[r]))
    ensures forall j {:trigger IsInstruction(lines[j])} :: methodStart < j < r && j < |lines| ==> !IsInstruction(lines[j])
    ensures r == methodStart + 1 && methodStart + 1 < |lines| && !IsInstruction(lines[r])
            ==> forall j {:trigger IsInstruction(lines[j])} :: methodStart < j < |lines| ==> !IsInstruction(lines[j])
  {
    var k := IndexOfFirst(lines, methodStart + 1, IsInstruction);
    if k == -1 then methodStart + 1 else k
  }

  /** `findFirstInstruction`: a `for` loop over the lines after the
      method header with an early return. */
  method FindFirstInstruction(lines: seq<string>, methodStart: nat) returns (r: nat)
    ensures r == FirstInstruction(lines, methodStart)
  {
    var i := methodStart + 1;
    while i < |lines|
      invariant methodStart + 1 <= i
      invariant forall j {:trigger IsInstruction(lines[j])} :: methodStart < j < i && j < |lines| ==> !IsInstruction(lines[j])
    {
      var trimmed := Trim(lines[i]);
      ClassifyLine(lines[i], trimmed);
      if trimmed == "" || StartsWith(trimmed, "#") {
        NotInstructionYet(lines, methodStart, i);
        i := i + 1;
        continue;
      }
      if NoneStartsWith(trimmed, SkipPrefixes) {
        FirstInstructionAt(lines, methodStart, i);
        return i;
      }
      NotInstructionYet(lines, methodStart, i);
      i := i + 1;
    }
    NoInstructionAfter(lines, methodStart);
    return methodStart + 1;
  }

  /** An instruction with none before it, after the header, is the insertion point. */
  lemma FirstInstructionAt(lines: seq<string>, methodStart: nat, i: nat)
    requires methodStart < i < |lines| && IsInstruction(lines[i])
    requires forall j {:trigger IsInstruction(lines[j])} :: methodStart < j < i && j < |lines| ==> !IsInstruction(lines[j])
    ensures FirstInstruction(lines, methodStart) == i
  {
    IndexOfFirstIs(lines, methodStart + 1, i, IsInstruction);
  }

  /** With no instruction after the header, the insertion point is the line after it. */
  lemma NoInstructionAfter(lines: seq<string>, methodStart: nat)
    requires forall j {:trigger IsInstruction(lines[j])} :: methodStart < j < |lines| && j < |lines| ==> !IsInstruction(lines[j])
    ensures FirstInstruction(lines, methodStart) == methodStart + 1
  {
    IndexOfFirstIs(lines, methodStart + 1, -1, IsInstruction);
  }

  /** A line that is no instruction extends the lines already passed over. */
  lemma NotInstructionYet(lines: seq<string>, methodStart: nat, i: nat)
    requires i < |lines| && !IsInstruction(lines[i])
    requires forall j {:trigger IsInstruction(lines[j])} :: methodStart < j < i && j < |lines| ==> !IsInstruction(lines[j])
    ensures forall j {:trigger IsInstruction(lines[j])} :: methodStart < j < i + 1 && j < |lines| ==> !IsInstruction(lines[j])
  {
    forall j | methodStart < j < i + 1 && j < |lines| ensures !IsInstruction(lines[j]) {
      if j < i {
        assert !IsInstruction(lines[j]);
      }
    }
  }

  /** How the two tests of the loop body decide whether a line is an instruction. */
  lemma ClassifyLine(line: string, trimmed: string)
    requires trimmed == Trim(line)
    ensures trimmed == "" || StartsWith(trimmed, "#") ==> !IsInstruction(line)
    ensures !(trimmed == "" || StartsWith(trimmed, "#"))
            ==> (IsInstruction(line) <==> NoneStartsWith(trimmed, SkipPrefixes))
  {
  }

  /** The search result is determined by where `P` first holds. */
  lemma IndexOfFirstIs(lines: seq<string>, from: nat, i: int, P: string -> bool)
    requires i == -1 || (from <= i < |lines| && P(lines[i]))
    requires forall j :: from <= j < |lines| && (i == -1 || j < i) ==> !P(lines[j])
    ensures IndexOfFirst(lines, from, P) == i
  {
  }

  /** A failed test at `i` extends the prefix on which `P` fails. */
  lemma FailsThrough(lines: seq<string>, i: nat, P: string -> bool)
    requires i < |lines| && !P(lines[i])
    requires forall j :: 0 <= j < i ==> !P(lines[j])
    ensures forall j :: 0 <= j < i + 1 ==> !P(lines[j])
  {
  }

  /** The register count a declaration line states: all ASCII digits of the
      trimmed line read as one `Int`, or 0 when there are none or they do
      not fit in an `Int`. */
  function DeclaredCount(line: string): (n: int)
    ensures 0 <= n <= IntMax
  {
    var digits := DigitsOf(Trim(line));
    match ToIntOrNull(digits)
    case Some(v) => assert |digits| > 0 && IsDigit(digits[0]); v
    case None => 0
  }

  /** The declaration line after the count has been incremented (with
      `Int` wrap-around), keeping the directive `.locals` or `.registers`. */
  function RewrittenDeclaration(line: string): string {
    var newRegs := IncInt(DeclaredCount(line));
    var directive := if StartsWith(Trim(line), ".locals") then ".locals " else ".registers ";
    Indent + (directive + IntToString(newRegs))
  }

  /** The register the injected instructions use: `v` followed by the count before the increment. */
  function InjectedRegister(declaration: string): string {
    "v" + IntToString(DeclaredCount(declaration))
  }

  function InsertAt(lines: seq<string>, index: nat, line: string): (r: seq<string>)
    requires index <= |lines|
  {
    lines[..index] + [line] + lines[index..]
  }

  /** What `injectLoadLibrary` writes back to an existing file whose lines
      are `lines`; `None` when it returns false and writes nothing. */
  function Inject(lines: seq<string>, libName: string): Option<seq<string>> {
    var c := IndexOfFirst(lines, 0, IsClinitHeader);
    if c == -1 then Some(lines + FreshInitializer(libName))
    else
      var r := IndexOfFirst(lines, c, IsRegisterDeclaration);
      if r == -1 then None else Some(PatchInitializer(lines, c, r, libName))
  }

  /** The existing initializer starting at line `c`, whose register
      declaration is line `r`, patched: the declaration rewritten and the
      two instructions and a blank line inserted before its first instruction. */
  function PatchInitializer(lines: seq<string>, c: nat, r: nat, libName: string): seq<string>
    requires c <= r < |lines|
  {
    var patched := lines[r := RewrittenDeclaration(lines[r])];
    var k := FirstInstruction(patched, c);
    InstructionAtMostEnd(patched, c);
    var reg := InjectedRegister(lines[r]);
    patched[..k] + [ConstStringLine(reg, libName), LoadLibraryLine(reg), ""] + patched[k..]
  }

  /** `injectLoadLibrary(smaliFile, fallbackLevel, libName)`. `smaliFile` is
      the file's lines, `None` when the file does not exist; `written` is what
      the method writes back, `None` when it writes nothing. The local list
      is edited as the source edits its `MutableList`: appends, one index
      assignment and three insertions at the same index. */
  method InjectLoadLibrary(smaliFile: Option<seq<string>>, fallbackLevel: int, libName: string)
    returns (ok: bool, written: Option<seq<string>>)
    ensures ok <==> written.Some?
    ensures smaliFile.None? ==> written.None?
    ensures smaliFile.Some? ==> written == Inject(smaliFile.value, libName)
  {
    if smaliFile.None? {
      return false, None;
    }
    var lines := smaliFile.value;
    var clinitIdx := IndexOfFirst(lines, 0, IsClinitHeader);
    if clinitIdx == -1 {
      ghost var original := lines;
      lines := lines + [""];
      lines := lines + [ClinitHeader];
      lines := lines + [Indent + ".locals 1"];
      lines := lines + [ConstStringLine("v0", libName)];
      lines := lines + [LoadLibraryLine("v0")];
      lines := lines + [Indent + "return-void"];
      lines := lines + [".end method"];
      AppendSeven(original, FreshInitializer(libName));
      return true, Some(lines);
    }
    // the index within `subList(clinitIdx, size)`, shifted back by `clinitIdx`
    var found := IndexOfFirst(lines, clinitIdx, IsRegisterDeclaration);
    var regIdx := (if found == -1 then -1 else found - clinitIdx) + clinitIdx;
    if regIdx >= clinitIdx {
      InjectPatchesAt(lines, libName, clinitIdx, regIdx);
      lines := PatchExisting(lines, clinitIdx, regIdx, libName);
      return true, Some(lines);
    }
    return false, None;
  }

  /** The existing-initializer branch of `injectLoadLibrary` on the mutable
      line list: the declaration line is replaced, then three lines are
      inserted at the first instruction, last one first. */
  method PatchExisting(lines: seq<string>, clinitIdx: nat, regIdx: nat, libName: string)
    returns (out: seq<string>)
    requires clinitIdx <= regIdx < |lines|
    ensures out == PatchInitializer(lines, clinitIdx, regIdx, libName)
  {
    out := lines;
    var regLine := Trim(out[regIdx]);
    var isLocals := StartsWith(regLine, ".locals");
    var currentRegs := ToIntOrNull(DigitsOf(regLine)).GetOr(0);
    assert currentRegs == DeclaredCount(lines[regIdx]);
    var newRegs := IncInt(currentRegs);
    var targetReg := "v" + IntToString(currentRegs);
    out := out[regIdx := Indent + ((if isLocals then ".locals " else ".registers ") + IntToString(newRegs))];
    var insertIdx := FindFirstInstruction(out, clinitIdx);
    InstructionAtMostEnd(out, clinitIdx);
    ghost var patched := out;
    out := InsertAt(out, insertIdx, "");
    out := InsertAt(out, insertIdx, LoadLibraryLine(targetReg));
    out := InsertAt(out, insertIdx, ConstStringLine(targetReg, libName));
    ThreeInsertions(patched, insertIdx, ConstStringLine(targetReg, libName), LoadLibraryLine(targetReg), "");
  }

  lemma InjectPatchesAt(lines: seq<string>, libName: string, c: nat, r: nat)
    requires c == IndexOfFirst(lines, 0, IsClinitHeader)
    requires r == IndexOfFirst(lines, c, IsRegisterDeclaration)
    ensures c <= r < |lines| && Inject(lines, libName) == Some(PatchInitializer(lines, c, r, libName))
  {
  }

  lemma AppendSeven(s: seq<string>, f: seq<string>)
    requires |f| == 7
    ensures s + [f[0]] + [f[1]] + [f[2]] + [f[3]] + [f[4]] + [f[5]] + [f[6]] == s + f
  {
  }

  lemma InstructionAtMostEnd(lines: seq<string>, methodStart: nat)
    requires methodStart < |lines|
    ensures FirstInstruction(lines, methodStart) <= |lines|
  {
  }

  lemma ThreeInsertions(lines: seq<string>, k: nat, a: string, b: string, c: string)
    requires k <= |lines|
    ensures InsertAt(InsertAt(InsertAt(lines, k, c), k, b), k, a) == lines[..k] + [a, b, c] + lines[k..]
  {
    var s1 := InsertAt(lines, k, c);
    assert s1[..k] == lines[..k] && s1[k..] == [c] + lines[k..];
    var s2 := InsertAt(s1, k, b);
    assert s2[..k] == lines[..k] && s2[k..] == [b, c] + lines[k..];
  }

  // ------------------------------------------------------------- properties

  /** Where an original line ends up once three lines are inserted at `k`. */
  function Shifted(j: nat, k: nat): nat {
    if j < k then j else j + 3
  }

  lemma {:induction false} ContainsAt(s: string, part: string, i: nat)
    requires i <= |s| && StartsWith(s[i..], part)
    ensures Contains(s, part)
    decreases i
  {
    if i > 0 {
      assert s[1..][i - 1..] == s[i..];
      ContainsAt(s[1..], part, i - 1);
    }
  }

  lemma HeaderIsHeader()
    ensures IsClinitHeader(ClinitHeader)
  {
    var prefix := ".method static ";
    assert ClinitHeader[|prefix|..] == ClinitSignature;
    ContainsAt(ClinitHeader, ClinitSignature, |prefix|);
    assert ClinitHeader[..7] == prefix[..7];
  }

  lemma DiffersAt(s: string, p: string, i: nat)
    requires i < |s| && i < |p| && s[i] != p[i]
    ensures !StartsWith(s, p)
  {
    if |p| <= |s| {
      assert s[..|p|][i] == s[i];
    }
  }

  /** An indented line is not a method header. */
  lemma IndentedIsNotHeader(body: string)
    ensures !IsClinitHeader(Indent + body)
  {
    DiffersAt(Indent + body, ".method", 0);
  }

  /** Of the appended block, only the second line is a `<clinit>` header. */
  lemma FreshInitializerHeader(libName: string)
    ensures var f := FreshInitializer(libName);
      forall i :: 0 <= i < |f| ==> (IsClinitHeader(f[i]) <==> i == 1)
  {
    HeaderIsHeader();
    var f := FreshInitializer(libName);
    IndentedIsNotHeader(".locals 1");
    IndentedIsNotHeader(ConstString("v0", libName));
    IndentedIsNotHeader(LoadLibrary("v0"));
    IndentedIsNotHeader("return-void");
    DiffersAt(f[6], ".method", 1);
  }

  /** A class without a static initializer gets exactly one: the seven
      appended lines, whose second line is the only method header for
      `<clinit>` in the result. */
  lemma InjectAppends(lines: seq<string>, libName: string)
    requires forall i :: 0 <= i < |lines| ==> !IsClinitHeader(lines[i])
    ensures Inject(lines, libName) == Some(lines + FreshInitializer(libName))
    ensures var out := lines + FreshInitializer(libName);
      forall i :: 0 <= i < |out| ==> (IsClinitHeader(out[i]) <==> i == |lines| + 1)
  {
    var f := FreshInitializer(libName);
    FreshInitializerHeader(libName);
    var out := lines + f;
    assert forall i :: |lines| <= i < |out| ==> out[i] == f[i - |lines|];
  }

  /** A class whose first static initializer has no register declaration
      at or after its header is left alone. */
  lemma InjectFailsWithoutDeclaration(lines: seq<string>, libName: string, c: nat)
    requires c < |lines| && IsClinitHeader(lines[c])
    requires forall i :: 0 <= i < c ==> !IsClinitHeader(lines[i])
    requires forall j :: c <= j < |lines| ==> !IsRegisterDeclaration(lines[j])
    ensures Inject(lines, libName).None?
  {
    assert IndexOfFirst(lines, 0, IsClinitHeader) == c;
  }

  /** A register declaration never counts as an instruction. */
  lemma DeclarationIsNotInstruction(line: string)
    requires IsRegisterDeclaration(line)
    ensures !IsInstruction(line)
  {
    var i := if StartsWith(TrimStart(line), ".registers") then 0 else 1;
    TrimPrefix(line, SkipPrefixes[i]);
    StartsWithMember(Trim(line), SkipPrefixes, i);
  }

  /** An indented directive followed by a number trims to the unindented text. */
  lemma TrimDeclaration(directive: string, m: int)
    requires |directive| > 0 && !IsWhitespace(directive[0])
    ensures var token := directive + IntToString(m);
      TrimStart(Indent + token) == token && Trim(Indent + token) == token
  {
    var digits := IntToString(m);
    var token := directive + digits;
    assert IsDigit(digits[|digits| - 1]);
    assert token[|token| - 1] == digits[|digits| - 1];
    TrimIndented(Indent, token);
  }

  lemma DirectiveHasNoDigits(directive: string)
    requires directive == ".locals " || directive == ".registers "
    ensures DigitsOf(directive) == ""
  {
    NoDigits(directive);
  }

  /** A declaration line written with a non-negative count reads back as that count. */
  lemma CountOfDeclaration(directive: string, m: int)
    requires directive == ".locals " || directive == ".registers "
    requires 0 <= m <= IntMax
    ensures DeclaredCount(Indent + (directive + IntToString(m))) == m
  {
    var digits := IntToString(m);
    TrimDeclaration(directive, m);
    DirectiveHasNoDigits(directive);
    DigitsOfConcat(directive, digits);
    DigitsOfDigits(digits);
    assert DigitsOf(directive + digits) == digits;
    IntRoundTrip(m);
  }

  /** The rewritten line of a declaration whose directive is `directive`. */
  lemma RewrittenIs(line: string)
    ensures var directive := if StartsWith(Trim(line), ".locals") then ".locals " else ".registers ";
      RewrittenDeclaration(line) == Indent + (directive + IntToString(IncInt(DeclaredCount(line))))
  {
  }

  /** Reading the rewritten declaration back: it is still a declaration of
      the same kind, and below `Int.MAX_VALUE` it declares one register
      more than before, so the injected register `v<n>` is the one register
      it adds. */
  lemma DeclarationBumped(line: string)
    ensures IsRegisterDeclaration(RewrittenDeclaration(line))
    ensures StartsWith(Trim(RewrittenDeclaration(line)), ".locals") <==> StartsWith(Trim(line), ".locals")
    ensures var n := DeclaredCount(line);
      n < IntMax ==> DeclaredCount(RewrittenDeclaration(line)) == n + 1
  {
    var n := DeclaredCount(line);
    var m := IncInt(n);
    var isLocals := StartsWith(Trim(line), ".locals");
    var directive := if isLocals then ".locals " else ".registers ";
    RewrittenIs(line);
    TrimDeclaration(directive, m);
    DirectiveKind(directive, IntToString(m));
    if n < IntMax {
      CountOfDeclaration(directive, m);
    }
  }

  lemma DirectiveKind(directive: string, digits: string)
    requires directive == ".locals " || directive == ".registers "
    ensures StartsWith(directive + digits, ".locals") <==> directive == ".locals "
    ensures StartsWith(directive + digits, ".locals") || StartsWith(directive + digits, ".registers")
  {
    var token := directive + digits;
    assert token[..|directive|] == directive;
    if directive == ".registers " {
      DiffersAt(token, ".locals", 1);
    }
  }

  /** The register the injected instructions use is `v<n>` for the old
      count `n`, so it differs from every register `v0` .. `v<n-1>` the
      method body could already use. */
  lemma InjectedRegisterFresh(line: string, i: int)
    requires 0 <= i < DeclaredCount(line)
    ensures "v" + IntToString(i) != InjectedRegister(line)
  {
    var n := DeclaredCount(line);
    IntRoundTrip(i);
    IntRoundTrip(n);
    assert ("v" + IntToString(i))[1..] == IntToString(i);
    assert ("v" + IntToString(n))[1..] == IntToString(n);
  }

  /** Line `r` replaced by `v`, then three lines inserted at `k`: they sit
      at `k`, `k + 1` and `k + 2`, and `v` moves to `Shifted(r, k)`. */
  lemma UpdateThenInsert(lines: seq<string>, r: nat, v: string, k: nat, x: string, y: string, z: string,
                         out: seq<string>)
    requires r < |lines| && k <= |lines|
    requires out == lines[r := v][..k] + [x, y, z] + lines[r := v][k..]
    ensures |out| == |lines| + 3 && out[k] == x && out[k + 1] == y && out[k + 2] == z
    ensures Shifted(r, k) < |out| && out[Shifted(r, k)] == v
  {
  }

  /** After the same edit every other line moves to its `Shifted` index. */
  lemma UpdateThenInsertKeeps(lines: seq<string>, r: nat, v: string, k: nat, x: string, y: string, z: string,
                              out: seq<string>)
    requires r < |lines| && k <= |lines|
    requires out == lines[r := v][..k] + [x, y, z] + lines[r := v][k..]
    ensures forall j :: 0 <= j < |lines| && j != r ==> Shifted(j, k) < |out| && out[Shifted(j, k)] == lines[j]
  {
  }

  /** Replacing a line that fails `P` by another that fails `P` does not move the search result. */
  lemma {:induction false} IndexOfFirstUpdate(a: seq<string>, i: nat, v: string, from: nat, P: string -> bool)
    requires i < |a| && !P(a[i]) && !P(v)
    ensures IndexOfFirst(a[i := v], from, P) == IndexOfFirst(a, from, P)
    decreases |a| - from
  {
    if from < |a| {
      IndexOfFirstUpdate(a, i, v, from + 1, P);
    }
  }

  /** The first instruction after the header is the same before and after
      the declaration is rewritten. */
  lemma PatchKeepsInsertionPoint(lines: seq<string>, c: nat, r: nat)
    requires c <= r < |lines| && IsRegisterDeclaration(lines[r])
    ensures FirstInstruction(lines[r := RewrittenDeclaration(lines[r])], c) == FirstInstruction(lines, c)
  {
    var v := RewrittenDeclaration(lines[r]);
    DeclarationIsNotInstruction(lines[r]);
    DeclarationBumped(lines[r]);
    DeclarationIsNotInstruction(v);
    IndexOfFirstUpdate(lines, r, v, c + 1, IsInstruction);
  }

  /** A class whose first static initializer starts at line `c` and has
      its first register declaration at line `r` is patched there. */
  lemma InjectFindsInitializer(lines: seq<string>, libName: string, c: nat, r: nat)
    requires c <= r < |lines|
    requires IsClinitHeader(lines[c]) && forall i :: 0 <= i < c ==> !IsClinitHeader(lines[i])
    requires IsRegisterDeclaration(lines[r]) && forall j :: c <= j < r ==> !IsRegisterDeclaration(lines[j])
    ensures Inject(lines, libName) == Some(PatchInitializer(lines, c, r, libName))
  {
    assert IndexOfFirst(lines, 0, IsClinitHeader) == c;
    assert IndexOfFirst(lines, c, IsRegisterDeclaration) == r;
  }

  /** The patched text is the rewritten text with three lines inserted at
      the first instruction of the original method body. */
  lemma PatchIsInsertion(lines: seq<string>, c: nat, r: nat, libName: string)
    requires c <= r < |lines| && IsRegisterDeclaration(lines[r])
    ensures var k := FirstInstruction(lines, c);
      var reg := InjectedRegister(lines[r]);
      && c < k <= |lines|
      && PatchInitializer(lines, c, r, libName)
         == lines[r := RewrittenDeclaration(lines[r])][..k]
            + [ConstStringLine(reg, libName), LoadLibraryLine(reg), ""]
            + lines[r := RewrittenDeclaration(lines[r])][k..]
  {
    PatchKeepsInsertionPoint(lines, c, r);
    InstructionAtMostEnd(lines, c);
  }

  /** Patching an existing initializer: the output has three more lines,
      and the declaration line is replaced by its rewrite, shifted by three
      when it comes after the inserted lines. */
  lemma PatchShape(lines: seq<string>, c: nat, r: nat, libName: string)
    requires c <= r < |lines| && IsRegisterDeclaration(lines[r])
    ensures var out := PatchInitializer(lines, c, r, libName);
      var k := FirstInstruction(lines, c);
      && c < k <= |lines|
      && |out| == |lines| + 3
      && Shifted(r, k) < |out| && out[Shifted(r, k)] == RewrittenDeclaration(lines[r])
  {
    PatchIsInsertion(lines, c, r, libName);
    var k := FirstInstruction(lines, c);
    var reg := InjectedRegister(lines[r]);
    UpdateThenInsert(lines, r, RewrittenDeclaration(lines[r]), k, ConstStringLine(reg, libName), LoadLibraryLine(reg), "",
                     PatchInitializer(lines, c, r, libName));
  }

  /** The constant load, the `loadLibrary` call and a blank line sit at the
      index of the first instruction of the original method body, and both
      instructions use the fresh register. */
  lemma PatchInsertsCall(lines: seq<string>, c: nat, r: nat, libName: string)
    requires c <= r < |lines| && IsRegisterDeclaration(lines[r])
    ensures var out := PatchInitializer(lines, c, r, libName);
      var k := FirstInstruction(lines, c);
      var reg := InjectedRegister(lines[r]);
      && k + 2 < |out|
      && out[k] == ConstStringLine(reg, libName)
      && out[k + 1] == LoadLibraryLine(reg)
      && out[k + 2] == ""
  {
    PatchIsInsertion(lines, c, r, libName);
    var k := FirstInstruction(lines, c);
    var reg := InjectedRegister(lines[r]);
    UpdateThenInsert(lines, r, RewrittenDeclaration(lines[r]), k, ConstStringLine(reg, libName), LoadLibraryLine(reg), "",
                     PatchInitializer(lines, c, r, libName));
  }

  /** Patching an existing initializer keeps every original line other
      than the declaration, in order and unchanged, shifted by three when
      it comes after the inserted lines. */
  lemma PatchKeepsOtherLines(lines: seq<string>, c: nat, r: nat, libName: string)
    requires c <= r < |lines| && IsRegisterDeclaration(lines[r])
    ensures var out := PatchInitializer(lines, c, r, libName);
      var k := FirstInstruction(lines, c);
      forall j :: 0 <= j < |lines| && j != r ==> Shifted(j, k) < |out| && out[Shifted(j, k)] == lines[j]
  {
    PatchIsInsertion(lines, c, r, libName);
    var k := FirstInstruction(lines, c);
    var reg := InjectedRegister(lines[r]);
    UpdateThenInsertKeeps(lines, r, RewrittenDeclaration(lines[r]), k, ConstStringLine(reg, libName), LoadLibraryLine(reg), "",
                     PatchInitializer(lines, c, r, libName));
  }
}
