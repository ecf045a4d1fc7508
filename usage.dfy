/** The text surgery of `get_usage`: the remote command prints the CPU line
    and the memory line of `top -bn1`, and the monitor turns that text into a
    CPU figure and a memory percentage, or into nothing at all when any step
    fails. Python's `float()` is the parameter `number`, a partial function
    from text to a real number. */
module Usage {
  import opened Wrappers
  import opened Text

  /** The lines of the command's output: `output.strip().splitlines()`. */
  function Lines(output: string): (r: seq<string>)
    ensures r == [] <==> Strip(output) == []
  {
    SplitLines(Strip(output))
  }

  /** The CPU figure's text: the first comma field of the line, after its first
      `:`, stripped, with every `%` and every `us` deleted, stripped again.
      It exists exactly when that first field has a `:`; it holds no `%` and
      neither starts nor ends with white space. */
  function CpuToken(line: string): (r: Option<string>)
    ensures r.Some? <==> ':' in Split(line, ',')[0]
    ensures r.Some? ==> '%' !in r.value
    ensures r.Some? ==> r.value == [] || (!IsSpace(r.value[0]) && !IsSpace(r.value[|r.value| - 1]))
  {
    var fields := Split(Split(line, ',')[0], ':');
    if |fields| < 2 then None
    else
      var noPercent := Remove(Strip(fields[1]), "%");
      Some(Strip(Remove(noPercent, "us")))
  }

  /** The memory total's text: the first comma field of the line, after its
      first `:`, with every `total` deleted, stripped. It exists exactly when
      that first field has a `:`. */
  function TotalToken(line: string): (r: Option<string>)
    ensures r.Some? <==> ':' in Split(line, ',')[0]
    ensures r.Some? ==> r.value == [] || (!IsSpace(r.value[0]) && !IsSpace(r.value[|r.value| - 1]))
  {
    var fields := Split(Split(line, ',')[0], ':');
    if |fields| < 2 then None else Some(Strip(Remove(fields[1], "total")))
  }

  /** The free-memory text: the second comma field of the line with every
      `free` deleted, stripped. It exists exactly when the line has a comma. */
  function FreeToken(line: string): (r: Option<string>)
    ensures r.Some? <==> ',' in line
    ensures r.Some? ==> r.value == [] || (!IsSpace(r.value[0]) && !IsSpace(r.value[|r.value| - 1]))
  {
    var pieces := Split(line, ',');
    if |pieces| < 2 then None else Some(Strip(Remove(pieces[1], "free")))
  }

  /** The figure the monitor shows as memory usage: the free amount over the
      total, as a percentage. It is the share of FREE memory: it and the
      share of used memory add up to 100, and it lies in [0, 100] whenever
      the free amount lies between zero and the total. */
  function MemoryPercent(total: real, free: real): (r: real)
    requires total != 0.0
    ensures r + (total - free) / total * 100.0 == 100.0
    ensures 0.0 < total && 0.0 <= free <= total ==> 0.0 <= r <= 100.0
  {
    free / total * 100.0
  }

  /** The result of `get_usage` once the command's output is in hand: the CPU
      figure and the memory percentage, or None when a line or field is
      missing, a figure does not parse or the total is zero. */
  function ParseUsage(output: string, number: string -> Option<real>): (r: Option<(real, real)>)
    ensures r.Some? ==> |Lines(output)| >= 2 && CpuToken(Lines(output)[0]).Some?
    ensures r.Some? ==> TotalToken(Lines(output)[1]).Some? && FreeToken(Lines(output)[1]).Some?
  {
    var lines := Lines(output);
    if |lines| < 1 then None
    else
      var cpuText := CpuToken(lines[0]);
      if cpuText.None? || number(cpuText.value).None? then None
      else if |lines| < 2 then None
      else
        var totalText := TotalToken(lines[1]);
        if totalText.None? || number(totalText.value).None? then None
        else
          var freeText := FreeToken(lines[1]);
          if freeText.None? || number(freeText.value).None? then None
          else
            var total := number(totalText.value).value;
            if total == 0.0 then None
            else Some((number(cpuText.value).value, MemoryPercent(total, number(freeText.value).value)))
  }

  /** `get_usage`: None when the remote command could not be run, otherwise
      the parse of its output. */
  function GetUsage(stdout: Option<string>, number: string -> Option<real>): (r: Option<(real, real)>)
    ensures stdout.None? ==> r.None?
    ensures r.Some? ==> |Lines(stdout.value)| >= 2
  {
    match stdout
    case None => None
    case Some(output) => ParseUsage(output, number)
  }

  /** Every way the output can be malformed yields None, never a partial result. */
  lemma ParseUsageFailures(output: string, number: string -> Option<real>)
    ensures |Lines(output)| < 2 ==> ParseUsage(output, number) == None
    ensures |Lines(output)| >= 2 && ':' !in Split(Lines(output)[0], ',')[0] ==> ParseUsage(output, number) == None
    ensures |Lines(output)| >= 2 && ':' !in Split(Lines(output)[1], ',')[0] ==> ParseUsage(output, number) == None
    ensures |Lines(output)| >= 2 && ',' !in Lines(output)[1] ==> ParseUsage(output, number) == None
    ensures (|Lines(output)| >= 2 && TotalToken(Lines(output)[1]).Some?
             && number(TotalToken(Lines(output)[1]).value) == Some(0.0)) ==> ParseUsage(output, number) == None
  {
  }

  /** A figure as `top` prints it: digits and decimal points. */
  predicate IsNumeral(t: string) {
    t != [] && forall i :: 0 <= i < |t| ==> '0' <= t[i] <= '9' || t[i] == '.'
  }

  /** Padding between fields: white space that does not end the line. */
  predicate IsPad(s: string) {
    AllSpace(s) && NoLineBreak(s)
  }

  /** `top`'s CPU line, with the user-time figure first. */
  function CpuLine(pad: string, user: string, rest: string): string {
    "%Cpu(s):" + pad + user + " us," + rest
  }

  /** `top`'s memory line, with the total first and the free amount second. */
  function MemLine(pad1: string, total: string, pad2: string, free: string, rest: string): string {
    "MiB Mem :" + pad1 + total + " total," + pad2 + free + " free," + rest
  }

  lemma CpuFirstField(pad: string, user: string, rest: string)
    requires IsPad(pad) && IsNumeral(user)
    ensures Split(CpuLine(pad, user, rest), ',')[0] == "%Cpu(s)" + [':'] + (pad + user + " us")
  {
    var a := "%Cpu(s)" + [':'] + (pad + user + " us");
    assert CpuLine(pad, user, rest) == a + [','] + rest;
    assert ',' !in a;
    SplitHead(a, ',', rest);
  }

  lemma AfterColon(head: string, b: string)
    requires ':' !in head && ':' !in b
    ensures Split(head + [':'] + b, ':') == [head, b]
  {
    SplitHead(head, ':', b);
    assert Split(b, ':') == [b];
  }

  lemma UserFigureStripped(pad: string, user: string)
    requires IsPad(pad) && IsNumeral(user)
    ensures Strip(pad + user + " us") == user + " us"
  {
    assert pad + user + " us" == pad + (user + " us") + "";
    StripPadded(pad, user + " us", "");
  }

  lemma UserFigureCleaned(user: string)
    requires IsNumeral(user)
    ensures Strip(Remove(Remove(user + " us", "%"), "us")) == user
  {
    assert '%' !in user + " us";
    assert user + " us" == (user + " ") + "us";
    RemoveSkip(user + " ", "us", "us");
    RemoveWhole("us");
    assert user + " " + [] == user + " ";
    assert user + " " == "" + user + " ";
    StripPadded("", user, " ");
  }

  /** The CPU token of a CPU line is the user-time figure it was built from. */
  lemma CpuTokenOfLine(pad: string, user: string, rest: string)
    requires IsPad(pad) && IsNumeral(user)
    ensures CpuToken(CpuLine(pad, user, rest)) == Some(user)
  {
    CpuFirstField(pad, user, rest);
    CpuAfterColon(pad, user);
    UserFigureStripped(pad, user);
    UserFigureCleaned(user);
    CpuTokenFromField(CpuLine(pad, user, rest), pad + user + " us", user);
  }

  lemma CpuAfterColon(pad: string, user: string)
    requires IsPad(pad) && IsNumeral(user)
    ensures Split("%Cpu(s)" + [':'] + (pad + user + " us"), ':') == ["%Cpu(s)", pad + user + " us"]
  {
    assert ':' !in pad + user + " us";
    AfterColon("%Cpu(s)", pad + user + " us");
  }

  lemma CpuTokenFromField(line: string, b: string, user: string)
    requires Split(Split(line, ',')[0], ':') == ["%Cpu(s)", b]
    requires Strip(Remove(Remove(Strip(b), "%"), "us")) == user
    ensures CpuToken(line) == Some(user)
  {
  }

  lemma MemFields(pad1: string, total: string, pad2: string, free: string, rest: string)
    requires IsPad(pad1) && IsPad(pad2) && IsNumeral(total) && IsNumeral(free)
    ensures |Split(MemLine(pad1, total, pad2, free, rest), ',')| >= 2
    ensures Split(MemLine(pad1, total, pad2, free, rest), ',')[0] == "MiB Mem " + [':'] + (pad1 + total + " total")
    ensures Split(MemLine(pad1, total, pad2, free, rest), ',')[1] == pad2 + free + " free"
  {
    var a := "MiB Mem " + [':'] + (pad1 + total + " total");
    var c := pad2 + free + " free";
    MemLineShape(pad1, total, pad2, free, rest);
    FigureHasNo(pad1, total, " total", ',');
    FigureHasNo(pad2, free, " free", ',');
    assert ',' !in a;
    SplitHead(a, ',', c + [','] + rest);
    SplitHead(c, ',', rest);
  }

  lemma MemLineShape(pad1: string, total: string, pad2: string, free: string, rest: string)
    ensures MemLine(pad1, total, pad2, free, rest)
            == ("MiB Mem " + [':'] + (pad1 + total + " total")) + [','] + ((pad2 + free + " free") + [','] + rest)
  {
    assert "MiB Mem :" == "MiB Mem " + [':'];
    assert " total," == " total" + [','];
    assert " free," == " free" + [','];
  }

  /** A padded figure followed by a word holds no character that is neither
      white space, a digit, a point nor in the word. */
  lemma FigureHasNo(pad: string, figure: string, word: string, c: char)
    requires IsPad(pad) && IsNumeral(figure)
    requires c !in word && !IsSpace(c) && c != '.' && !('0' <= c <= '9')
    ensures c !in pad + figure + word
  {
  }

  /** The labels of the memory line's figures, each after its space. */
  lemma MemLabels()
    ensures " total" == " " + "total" && " free" == " " + "free"
  {
  }

  /** Deleting a word that follows a padded figure and stripping leaves the figure. */
  lemma LabelledFigureCleaned(pad: string, figure: string, spaced: string, word: string)
    requires IsPad(pad) && IsNumeral(figure) && spaced == " " + word
    requires word != [] && !IsSpace(word[0]) && word[0] != '.' && !('0' <= word[0] <= '9')
    ensures Strip(Remove(pad + figure + spaced, word)) == figure
  {
    assert pad + figure + spaced == pad + figure + " " + word;
    assert word[0] !in pad + figure + " ";
    RemoveSkip(pad + figure + " ", word, word);
    RemoveWhole(word);
    assert pad + figure + " " + [] == pad + figure + " ";
    StripPadded(pad, figure, " ");
  }

  lemma TotalTokenFromField(line: string, b: string, total: string)
    requires Split(Split(line, ',')[0], ':') == ["MiB Mem ", b]
    requires Strip(Remove(b, "total")) == total
    ensures TotalToken(line) == Some(total)
  {
  }

  lemma FreeTokenFromField(line: string, c: string, free: string)
    requires |Split(line, ',')| >= 2 && Split(line, ',')[1] == c
    requires Strip(Remove(c, "free")) == free
    ensures FreeToken(line) == Some(free)
  {
  }

  lemma TotalAfterColon(pad: string, total: string)
    requires IsPad(pad) && IsNumeral(total)
    ensures Split("MiB Mem " + [':'] + (pad + total + " total"), ':') == ["MiB Mem ", pad + total + " total"]
  {
    assert ':' !in pad + total + " total";
    AfterColon("MiB Mem ", pad + total + " total");
  }

  lemma TotalTokenOfLine(pad1: string, total: string, pad2: string, free: string, rest: string)
    requires IsPad(pad1) && IsPad(pad2) && IsNumeral(total) && IsNumeral(free)
    ensures TotalToken(MemLine(pad1, total, pad2, free, rest)) == Some(total)
  {
    var b := pad1 + total + " total";
    MemFields(pad1, total, pad2, free, rest);
    TotalAfterColon(pad1, total);
    MemLabels();
    LabelledFigureCleaned(pad1, total, " total", "total");
    TotalTokenFromField(MemLine(pad1, total, pad2, free, rest), b, total);
  }

  lemma FreeTokenOfLine(pad1: string, total: string, pad2: string, free: string, rest: string)
    requires IsPad(pad1) && IsPad(pad2) && IsNumeral(total) && IsNumeral(free)
    ensures FreeToken(MemLine(pad1, total, pad2, free, rest)) == Some(free)
  {
    MemFields(pad1, total, pad2, free, rest);
    MemLabels();
    LabelledFigureCleaned(pad2, free, " free", "free");
    FreeTokenFromField(MemLine(pad1, total, pad2, free, rest), pad2 + free + " free", free);
  }

  lemma NoLineBreakConcat(a: string, b: string)
    requires NoLineBreak(a) && NoLineBreak(b)
    ensures NoLineBreak(a + b)
  {
    assert forall i :: 0 <= i < |a + b| ==> (a + b)[i] == if i < |a| then a[i] else b[i - |a|];
  }

  lemma CpuLineIsOneLine(pad: string, user: string, rest: string)
    requires IsPad(pad) && IsNumeral(user) && NoLineBreak(rest)
    ensures NoLineBreak(CpuLine(pad, user, rest))
  {
    NoLineBreakConcat("%Cpu(s):", pad);
    NoLineBreakConcat("%Cpu(s):" + pad, user);
    NoLineBreakConcat("%Cpu(s):" + pad + user, " us,");
    NoLineBreakConcat("%Cpu(s):" + pad + user + " us,", rest);
  }

  lemma MemLineIsOneLine(pad1: string, total: string, pad2: string, free: string, rest: string)
    requires IsPad(pad1) && IsPad(pad2) && IsNumeral(total) && IsNumeral(free) && NoLineBreak(rest)
    ensures NoLineBreak(MemLine(pad1, total, pad2, free, rest))
  {
    NoLineBreakConcat("MiB Mem :", pad1);
    NoLineBreakConcat("MiB Mem :" + pad1, total);
    NoLineBreakConcat("MiB Mem :" + pad1 + total, " total,");
    NoLineBreakConcat("MiB Mem :" + pad1 + total + " total,", pad2);
    NoLineBreakConcat("MiB Mem :" + pad1 + total + " total," + pad2, free);
    NoLineBreakConcat("MiB Mem :" + pad1 + total + " total," + pad2 + free, " free,");
    NoLineBreakConcat("MiB Mem :" + pad1 + total + " total," + pad2 + free + " free,", rest);
  }

  /** Two lines joined by a newline, with no white space at the outer ends,
      come back as those two lines. */
  lemma TwoLines(first: string, second: string)
    requires NoLineBreak(first) && NoLineBreak(second)
    requires first != [] && !IsSpace(first[0])
    requires second != [] && !IsSpace(second[|second| - 1])
    ensures Lines(first + "\n" + second) == [first, second]
  {
    var output := first + "\n" + second;
    assert output[0] == first[0];
    assert output[|output| - 1] == second[|second| - 1];
    StripUnpadded(output);
    SplitLinesHead(first, second);
  }

  /** White space after the last line, such as the newline that ends every
      line `grep` prints, does not change the lines. */
  lemma LinesIgnoreTrailingSpace(output: string, tail: string)
    requires output != [] && !IsSpace(output[0]) && !IsSpace(output[|output| - 1])
    requires AllSpace(tail)
    ensures Lines(output + tail) == Lines(output)
  {
    assert "" + output + tail == output + tail;
    StripPadded("", output, tail);
    StripUnpadded(output);
  }

  /** Once the lines and their tokens are known, the result is decided by
      whether the figures parse and the total is non-zero. */
  lemma ParseUsageOfTokens(output: string, cpu: string, mem: string,
                           user: string, total: string, free: string, number: string -> Option<real>)
    requires |Lines(output)| >= 2 && Lines(output)[0] == cpu && Lines(output)[1] == mem
    requires CpuToken(cpu) == Some(user)
    requires TotalToken(mem) == Some(total) && FreeToken(mem) == Some(free)
    ensures ParseUsage(output, number)
            == if number(user).Some? && number(total).Some? && number(free).Some? && number(total).value != 0.0
               then Some((number(user).value, MemoryPercent(number(total).value, number(free).value)))
               else None
  {
  }

  /** Parsing the two lines `top` prints, followed by any white space,
      gives back the figures they were
      built from: the user-time figure as the CPU value and free over total
      as the memory value, or None when a figure does not parse or the total
      is zero. */
  lemma TopOutputParses(pad: string, user: string, cpuRest: string,
                        pad1: string, total: string, pad2: string, free: string, memRest: string,
                        tail: string, number: string -> Option<real>)
    requires IsPad(pad) && IsPad(pad1) && IsPad(pad2)
    requires IsNumeral(user) && IsNumeral(total) && IsNumeral(free)
    requires NoLineBreak(cpuRest) && NoLineBreak(memRest)
    requires memRest == [] || !IsSpace(memRest[|memRest| - 1])
    requires AllSpace(tail)
    ensures ParseUsage(CpuLine(pad, user, cpuRest) + "\n" + MemLine(pad1, total, pad2, free, memRest) + tail, number)
            == if number(user).Some? && number(total).Some? && number(free).Some? && number(total).value != 0.0
               then Some((number(user).value, MemoryPercent(number(total).value, number(free).value)))
               else None
  {
    var cpu := CpuLine(pad, user, cpuRest);
    var mem := MemLine(pad1, total, pad2, free, memRest);
    CpuLineIsOneLine(pad, user, cpuRest);
    MemLineIsOneLine(pad1, total, pad2, free, memRest);
    assert cpu[0] == '%';
    assert mem[|mem| - 1] == if memRest == [] then ',' else memRest[|memRest| - 1];
    TwoLines(cpu, mem);
    LinesIgnoreTrailingSpace(cpu + "\n" + mem, tail);
    CpuTokenOfLine(pad, user, cpuRest);
    TotalTokenOfLine(pad1, total, pad2, free, memRest);
    FreeTokenOfLine(pad1, total, pad2, free, memRest);
    ParseUsageOfTokens(cpu + "\n" + mem + tail, cpu, mem, user, total, free, number);
  }

  lemma SampleFields()
    ensures IsPad("  ") && IsNumeral("3.2") && IsNumeral("8000.0") && IsNumeral("2000.0")
    ensures NoLineBreak("  1.0 sy") && NoLineBreak("  1000.0 used") && !IsSpace('d') && AllSpace("\n")
  {
  }

  /** The two lines of a typical `top` run, each ended by `grep`'s newline,
        %Cpu(s):  3.2 us,  1.0 sy
        MiB Mem :  8000.0 total,  2000.0 free,  1000.0 used
      (3.2% user time, 8000 MiB in all, 2000 MiB free) give a CPU figure of
      3.2 and a memory figure of 25: the free share, not the used share of 75. */
  lemma TopScenario(number: string -> Option<real>)
    requires number("3.2") == Some(3.2)
    requires number("8000.0") == Some(8000.0) && number("2000.0") == Some(2000.0)
    ensures ParseUsage(CpuLine("  ", "3.2", "  1.0 sy") + "\n"
                       + MemLine("  ", "8000.0", "  ", "2000.0", "  1000.0 used") + "\n", number)
            == Some((3.2, 25.0))
  {
    SampleFields();
    TopOutputParses("  ", "3.2", "  1.0 sy", "  ", "8000.0", "  ", "2000.0", "  1000.0 used", "\n", number);
    assert MemoryPercent(8000.0, 2000.0) == 25.0;
  }
}
