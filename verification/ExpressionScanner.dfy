/**
 The two expression scanners of cpplint, `FindEndOfExpressionInLine` with `CloseExpression` and
 `FindStartOfExpressionInLine` with `ReverseCloseExpression`, with every heuristic for `<`, `>`,
 `<<`, `->`, `>=`, `operator` and `;`.
 */
module ExpressionScanner {
  import opened Brackets

  // ----- the regular expressions

  /** `\s`, for the ASCII characters it stands for without the UNICODE flag. */
  predicate IsRegexSpace(c: char) {
    c == ' ' || '\U{09}' <= c <= '\U{0D}'
  }

  /** `\w`, likewise. */
  predicate IsRegexWord(c: char) {
    'a' <= c <= 'z' || 'A' <= c <= 'Z' || '0' <= c <= '9' || c == '_'
  }

  function TrimRight(s: string): string {
    if s != [] && IsRegexSpace(Last(s)) then TrimRight(Pop(s)) else s
  }

  /** `\boperator\s*$` is found in `s`. */
  predicate EndsWithOperator(s: string) {
    var t := TrimRight(s);
    && |t| >= 8 && t[|t| - 8..] == "operator"
    && (|t| == 8 || !IsRegexWord(t[|t| - 9]))
  }

  /** The last character of a text that ends with `operator` and spaces is no bracket. */
  lemma OperatorEndsPlainly(s: string)
    requires EndsWithOperator(s)
    ensures s != [] && (Last(s) == 'r' || IsRegexSpace(Last(s)))
  {
    var t := TrimRight(s);
    assert t[|t| - 8..][7] == 'r';
  }

  /** `\s>=\s` matches the text that starts one character before position `i`. */
  predicate IsSpacedGreaterEqual(line: string, i: nat)
    requires i < |line|
  {
    && 0 < i && i + 2 < |line|
    && IsRegexSpace(line[i - 1]) && line[i] == '>' && line[i + 1] == '=' && IsRegexSpace(line[i + 2])
  }

  // ----- scanning one line to the right

  /** Drops the run of `angle` characters at the top of the stack. */
  function TrimTop(stack: seq<char>, angle: char): seq<char> {
    if stack != [] && Last(stack) == angle then TrimTop(Pop(stack), angle) else stack
  }

  function ForwardStep(line: string, i: nat, stack: seq<char>): Scan
    requires i < |line|
  {
    var c := line[i];
    if IsOpener(c) then Pending(stack + [c])
    else if c == '<' then
      if i > 0 && line[i - 1] == '<' then
        if stack != [] && Last(stack) == '<' then
          if |stack| == 1 then GaveUp else Pending(Pop(stack))
        else Pending(stack)
      else if i > 0 && EndsWithOperator(line[..i]) then Pending(stack)
      else Pending(stack + ['<'])
    else if IsCloser(c) then
      var s := TrimTop(stack, '<');
      if s == [] || Flip(c) != Last(s) then GaveUp
      else if |s| == 1 then Found(i + 1)
      else Pending(Pop(s))
    else if c == '>' then
      if i > 0 && (line[i - 1] == '-' || EndsWithOperator(line[..i - 1])) then Pending(stack)
      else if stack != [] && Last(stack) == '<' then
        if |stack| == 1 then Found(i + 1) else Pending(Pop(stack))
      else Pending(stack)
    else if c == ';' then
      var s := TrimTop(stack, '<');
      if s == [] then GaveUp else Pending(s)
    else Pending(stack)
  }

  function ScanForward(line: string, i: nat, stack: seq<char>): Scan
    requires i <= |line|
    decreases |line| - i
  {
    if i == |line| then Pending(stack)
    else
      var r := ForwardStep(line, i, stack);
      if r.Pending? then ScanForward(line, i + 1, r.stack) else r
  }

  /** What is on the stack where a scan gives up: the bracket that did not match on top, or nothing. */
  function AbandonedForward(line: string, i: nat, stack: seq<char>): seq<char>
    requires i <= |line|
    decreases |line| - i
  {
    if i == |line| then stack
    else
      var r := ForwardStep(line, i, stack);
      if r.Pending? then AbandonedForward(line, i + 1, r.stack) else TrimTop(stack, '<')
  }

  /** The list of open brackets that a search owns and that the line scanners change in place. */
  class CharStack {
    var chars: seq<char>

    constructor ()
      ensures chars == []
    {
      chars := [];
    }

    method Push(c: char)
      modifies this
      ensures chars == old(chars) + [c]
    {
      chars := chars + [c];
    }

    method Drop()
      requires chars != []
      modifies this
      ensures chars == Pop(old(chars))
    {
      chars := Pop(chars);
    }

    /** The inner loop of both scanners. */
    method DropAngles(angle: char)
      modifies this
      ensures chars == TrimTop(old(chars), angle)
    {
      while chars != [] && Last(chars) == angle
        invariant TrimTop(chars, angle) == TrimTop(old(chars), angle)
        decreases |chars|
      {
        Drop();
      }
    }
  }

  /** What a line scanner returns and leaves in the list it was given: a position and an empty list, or a
      failure and what was abandoned, or the very same list with what is still open. */
  ghost predicate Reports(r: Scan, abandoned: seq<char>, stack: CharStack, pos: int, newStack: CharStack?)
    reads stack
  {
    match r
    case Found(e) => pos == e && newStack == null && stack.chars == []
    case GaveUp => pos == -1 && newStack == null && stack.chars == abandoned
    case Pending(s) => pos == -1 && newStack == stack && stack.chars == s
  }

  method FindEndOfExpressionInLine(line: string, startpos: nat, stack: CharStack)
    returns (pos: int, newStack: CharStack?)
    requires startpos <= |line|
    modifies stack
    ensures Reports(ScanForward(line, startpos, old(stack.chars)), AbandonedForward(line, startpos, old(stack.chars)),
                    stack, pos, newStack)
  {
    for i := startpos to |line|
      invariant ScanForward(line, startpos, old(stack.chars)) == ScanForward(line, i, stack.chars)
      invariant AbandonedForward(line, startpos, old(stack.chars)) == AbandonedForward(line, i, stack.chars)
    {
      var c := line[i];
      if IsOpener(c) {
        stack.Push(c);
      } else if c == '<' {
        if i > 0 && line[i - 1] == '<' {
          if stack.chars != [] && Last(stack.chars) == '<' {
            ghost var before := stack.chars;
            stack.Drop();
            if stack.chars == [] {
              assert TrimTop(before, '<') == TrimTop([], '<') == [];
              return -1, null;
            }
          }
        } else if i > 0 && EndsWithOperator(line[..i]) {
          continue;
        } else {
          stack.Push('<');
        }
      } else if IsCloser(c) {
        stack.DropAngles('<');
        if stack.chars == [] {
          return -1, null;
        }
        var top := Last(stack.chars);
        if (top == '(' && c == ')') || (top == '[' && c == ']') || (top == '{' && c == '}') {
          stack.Drop();
          if stack.chars == [] {
            return i + 1, null;
          }
        } else {
          return -1, null;
        }
      } else if c == '>' {
        if i > 0 && (line[i - 1] == '-' || EndsWithOperator(line[..i - 1])) {
          continue;
        }
        if stack.chars != [] {
          if Last(stack.chars) == '<' {
            stack.Drop();
            if stack.chars == [] {
              return i + 1, null;
            }
          }
        }
      } else if c == ';' {
        stack.DropAngles('<');
        if stack.chars == [] {
          return -1, null;
        }
      }
    }
    return -1, stack;
  }

  // ----- scanning one line to the left

  /** The characters at `i` and `i - 1` are read together and ignored: `->`, ` >= `, `operator>`, `<<`. */
  predicate SkipsTwo(line: string, i: nat)
    requires i < |line|
  {
    i > 0 &&
    if line[i] == '>' then line[i - 1] == '-' || IsSpacedGreaterEqual(line, i) || EndsWithOperator(line[..i])
    else line[i] == '<' && line[i - 1] == '<'
  }

  function BackwardStep(line: string, i: nat, stack: seq<char>): Scan
    requires i < |line| && !SkipsTwo(line, i)
  {
    var c := line[i];
    if IsCloser(c) || c == '>' then Pending(stack + [c])
    else if c == '<' then
      if stack != [] && Last(stack) == '>' then
        if |stack| == 1 then Found(i) else Pending(Pop(stack))
      else Pending(stack)
    else if IsOpener(c) then
      var s := TrimTop(stack, '>');
      if s == [] || Flip(c) != Last(s) then GaveUp
      else if |s| == 1 then Found(i)
      else Pending(Pop(s))
    else if c == ';' then
      var s := TrimTop(stack, '>');
      if s == [] then GaveUp else Pending(s)
    else Pending(stack)
  }

  function ScanBackward(line: string, i: int, stack: seq<char>): Scan
    requires -1 <= i < |line|
    decreases i
  {
    if i < 0 then Pending(stack)
    else if SkipsTwo(line, i) then ScanBackward(line, i - 2, stack)
    else
      var r := BackwardStep(line, i, stack);
      if r.Pending? then ScanBackward(line, i - 1, r.stack) else r
  }

  function AbandonedBackward(line: string, i: int, stack: seq<char>): seq<char>
    requires -1 <= i < |line|
    decreases i
  {
    if i < 0 then stack
    else if SkipsTwo(line, i) then AbandonedBackward(line, i - 2, stack)
    else
      var r := BackwardStep(line, i, stack);
      if r.Pending? then AbandonedBackward(line, i - 1, r.stack) else TrimTop(stack, '>')
  }

  method FindStartOfExpressionInLine(line: string, endpos: int, stack: CharStack)
    returns (pos: int, newStack: CharStack?)
    requires -1 <= endpos < |line|
    modifies stack
    ensures Reports(ScanBackward(line, endpos, old(stack.chars)), AbandonedBackward(line, endpos, old(stack.chars)),
                    stack, pos, newStack)
  {
    var i := endpos;
    while i >= 0
      invariant -1 <= i < |line|
      invariant ScanBackward(line, endpos, old(stack.chars)) == ScanBackward(line, i, stack.chars)
      invariant AbandonedBackward(line, endpos, old(stack.chars)) == AbandonedBackward(line, i, stack.chars)
    {
      var c := line[i];
      if IsCloser(c) {
        stack.Push(c);
      } else if c == '>' {
        if i > 0 && (line[i - 1] == '-' || IsSpacedGreaterEqual(line, i) || EndsWithOperator(line[..i])) {
          i := i - 1;
        } else {
          stack.Push('>');
        }
      } else if c == '<' {
        if i > 0 && line[i - 1] == '<' {
          i := i - 1;
        } else if stack.chars != [] && Last(stack.chars) == '>' {
          stack.Drop();
          if stack.chars == [] {
            return i, null;
          }
        }
      } else if IsOpener(c) {
        stack.DropAngles('>');
        if stack.chars == [] {
          return -1, null;
        }
        var top := Last(stack.chars);
        if (c == '(' && top == ')') || (c == '[' && top == ']') || (c == '{' && top == '}') {
          stack.Drop();
          if stack.chars == [] {
            return i, null;
          }
        } else {
          return -1, null;
        }
      } else if c == ';' {
        stack.DropAngles('>');
        if stack.chars == [] {
          return -1, null;
        }
      }
      i := i - 1;
    }
    return -1, stack;
  }

  // ----- scanning across lines

  /** A partner found at a position of a line, or the last line looked at before giving up. */
  datatype Partner = At(line: nat, pos: int) | Missing(lastLine: nat)

  function CloseAcross(lines: seq<string>, l: nat, i: nat, stack: seq<char>): Partner
    requires l < |lines| && i <= |lines[l]|
    decreases |lines| - l
  {
    match ScanForward(lines[l], i, stack)
    case Found(e) => At(l, e)
    case GaveUp => Missing(l)
    case Pending(s) => if s == [] || l + 1 == |lines| then Missing(l) else CloseAcross(lines, l + 1, 0, s)
  }

  /** `<[<=]` matches at position `pos`. */
  predicate IsShiftOrCompare(line: string, pos: nat)
    requires pos < |line|
  {
    line[pos] == '<' && pos + 1 < |line| && (line[pos + 1] == '<' || line[pos + 1] == '=')
  }

  function Closing(lines: seq<string>, l: nat, pos: nat): Partner
    requires l < |lines| && pos < |lines[l]|
  {
    var c := lines[l][pos];
    if !(IsOpener(c) || c == '<') || IsShiftOrCompare(lines[l], pos) then Missing(l)
    else CloseAcross(lines, l, pos, [])
  }

  method CloseExpression(lines: seq<string>, startLine: nat, startPos: nat)
    returns (line: string, linenum: nat, pos: int)
    requires startLine < |lines| && startPos < |lines[startLine]|
    ensures match Closing(lines, startLine, startPos)
            case At(l, e) => l < |lines| && line == lines[l] && linenum == l && pos == e > -1
            case Missing(l) => l < |lines| && line == lines[l] && linenum == |lines| && pos == -1
  {
    linenum := startLine;
    line := lines[linenum];
    if (line[startPos] !in "({[<") || IsShiftOrCompare(line, startPos) {
      return line, |lines|, -1;
    }
    var list := new CharStack();
    var stack: CharStack?;
    pos, stack := FindEndOfExpressionInLine(line, startPos, list);
    ScanForwardPosition(line, startPos, []);
    if pos > -1 {
      return;
    }
    while stack != null && stack.chars != [] && linenum < |lines| - 1
      invariant linenum < |lines| && line == lines[linenum]
      invariant stack == null || stack == list
      invariant Closing(lines, startLine, startPos) ==
                if stack != null && stack.chars != [] && linenum + 1 < |lines|
                then CloseAcross(lines, linenum + 1, 0, stack.chars) else Missing(linenum)
      decreases |lines| - linenum
    {
      linenum := linenum + 1;
      line := lines[linenum];
      ScanForwardPosition(line, 0, stack.chars);
      pos, stack := FindEndOfExpressionInLine(line, 0, stack);
      if pos > -1 {
        return;
      }
    }
    return line, |lines|, -1;
  }

  lemma {:induction false} ScanForwardPosition(line: string, i: nat, stack: seq<char>)
    requires i <= |line|
    ensures var r := ScanForward(line, i, stack); r.Found? ==> i < r.pos <= |line|
    decreases |line| - i
  {
    if i < |line| {
      var r := ForwardStep(line, i, stack);
      if r.Pending? {
        ScanForwardPosition(line, i + 1, r.stack);
      }
    }
  }

  function OpenAcross(lines: seq<string>, l: nat, i: int, stack: seq<char>): Partner
    requires l < |lines| && -1 <= i < |lines[l]|
    decreases l
  {
    match ScanBackward(lines[l], i, stack)
    case Found(k) => At(l, k)
    case GaveUp => Missing(l)
    case Pending(s) => if s == [] || l == 0 then Missing(l) else OpenAcross(lines, l - 1, |lines[l - 1]| - 1, s)
  }

  function Opening(lines: seq<string>, l: nat, pos: nat): Partner
    requires l < |lines| && pos < |lines[l]|
  {
    var c := lines[l][pos];
    if IsCloser(c) || c == '>' then OpenAcross(lines, l, pos, []) else Missing(l)
  }

  method ReverseCloseExpression(lines: seq<string>, endLine: nat, endPos: nat)
    returns (line: string, linenum: nat, pos: int)
    requires endLine < |lines| && endPos < |lines[endLine]|
    ensures match Opening(lines, endLine, endPos)
            case At(l, k) => l < |lines| && line == lines[l] && linenum == l && pos == k > -1
            case Missing(l) => l < |lines| && line == lines[l] && linenum == 0 && pos == -1
  {
    linenum := endLine;
    line := lines[linenum];
    if line[endPos] !in ")}]>" {
      return line, 0, -1;
    }
    var list := new CharStack();
    var stack: CharStack?;
    pos, stack := FindStartOfExpressionInLine(line, endPos, list);
    ScanBackwardPosition(line, endPos, []);
    if pos > -1 {
      return;
    }
    while stack != null && stack.chars != [] && linenum > 0
      invariant linenum < |lines| && line == lines[linenum]
      invariant stack == null || stack == list
      invariant Opening(lines, endLine, endPos) ==
                if stack != null && stack.chars != [] && linenum > 0
                then OpenAcross(lines, linenum - 1, |lines[linenum - 1]| - 1, stack.chars) else Missing(linenum)
      decreases linenum
    {
      linenum := linenum - 1;
      line := lines[linenum];
      ScanBackwardPosition(line, |line| - 1, stack.chars);
      pos, stack := FindStartOfExpressionInLine(line, |line| - 1, stack);
      if pos > -1 {
        return;
      }
    }
    return line, 0, -1;
  }

  lemma {:induction false} ScanBackwardPosition(line: string, i: int, stack: seq<char>)
    requires -1 <= i < |line|
    ensures var r := ScanBackward(line, i, stack); r.Found? ==> 0 <= r.pos <= i
    decreases i
  {
    if i >= 0 {
      if SkipsTwo(line, i) {
        ScanBackwardPosition(line, i - 2, stack);
      } else {
        var r := BackwardStep(line, i, stack);
        if r.Pending? {
          ScanBackwardPosition(line, i - 1, r.stack);
        }
      }
    }
  }
}
