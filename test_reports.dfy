/**
 * The string helpers the repository's tests use to report failures
 * (internal/util/testing/util.go): the parenthesised argument list, the
 * short function name, the mismatch message and the error-check report.
 * The function name is given as text; looking it up at run time is not
 * part of this model.
 */
module TestReports {
  import opened Wrappers
  import opened Strings

  const ArgSeparator: string := ", "

  /** The total length of a list of texts. */
  function TotalLength(parts: seq<string>): nat
  {
    if |parts| == 0 then 0 else TotalLength(parts[..|parts| - 1]) + |parts[|parts| - 1]|
  }

  /**
   * A join writes the separator exactly once between consecutive parts:
   * its length is the parts' length plus one separator per gap.
   */
  lemma {:induction false} JoinLength(parts: seq<string>, sep: string)
    ensures |Join(parts, sep)| == TotalLength(parts) + (if |parts| == 0 then 0 else (|parts| - 1) * |sep|)
  {
    if |parts| > 0 {
      var init, last := parts[..|parts| - 1], parts[|parts| - 1];
      assert parts == init + [last];
      JoinSnoc(init, last, sep);
      JoinLength(init, sep);
      if |init| > 0 {
        assert (|parts| - 1) * |sep| == (|init| - 1) * |sep| + |sep|;
      }
    }
  }

  /** What the argument writer has produced after the first `i` arguments. */
  function Written(args: seq<string>, i: nat): string
    requires i <= |args|
  {
    Join(args[..i], ArgSeparator) + (if 0 < i < |args| then ArgSeparator else "")
  }

  /** Writing argument `i`, and the separator unless it is the last, extends what was written. */
  lemma WrittenStep(args: seq<string>, i: nat)
    requires i < |args|
    ensures Written(args, i + 1) == Written(args, i) + args[i] + (if i != |args| - 1 then ArgSeparator else "")
  {
    JoinSnoc(args[..i], args[i], ArgSeparator);
    assert args[..i + 1] == args[..i] + [args[i]];
  }

  /**
   * The argument list of a test description: `(`, the arguments with
   * ", " after every one but the last, then `)`.
   */
  method ParseArgs(args: seq<string>) returns (s: string)
    ensures s == "(" + Join(args, ArgSeparator) + ")"
    ensures HasPrefix(s, "(") && HasSuffix(s, ")")
    ensures args == [] ==> s == "()"
  {
    s := "(";
    for i := 0 to |args|
      invariant s == "(" + Written(args, i)
    {
      WrittenStep(args, i);
      s := s + args[i];
      if i != |args| - 1 {
        s := s + ArgSeparator;
      }
    }
    assert args[..|args|] == args;
    s := s + ")";
    PrefixOfConcat("(", Join(args, ArgSeparator) + ")");
    assert s[|s| - 1..] == ")";
  }

  /** A test description is its argument list. */
  method ParseDescription(args: seq<string>) returns (s: string)
    ensures s == "(" + Join(args, ArgSeparator) + ")"
  {
    s := ParseArgs(args);
  }

  /** A function name without its package path: the text after the last `/`, or all of it. */
  function AfterLastSlash(name: string): (r: string)
    ensures '/' !in r
    ensures '/' !in name ==> r == name
    ensures '/' in name ==> |r| < |name| && name[|name| - |r| - 1] == '/' && name[|name| - |r|..] == r
  {
    var lastSlash := LastIndexOf(name, '/');
    if lastSlash == -1 then name else name[lastSlash + 1..]
  }

  /** A function name without the `-fm` suffix Go gives method values, if it has one. */
  function TrimFmSuffix(name: string): (r: string)
    ensures HasSuffix(name, "-fm") ==> r + "-fm" == name
    ensures !HasSuffix(name, "-fm") ==> r == name
  {
    if HasSuffix(name, "-fm") then
      assert name == name[..|name| - 3] + name[|name| - 3..];
      name[..|name| - 3]
    else name
  }

  /** Only one `-fm` is removed: trimming undoes exactly one appended suffix. */
  lemma TrimFmSuffixUndoesOne(name: string)
    ensures TrimFmSuffix(name + "-fm") == name
  {
    assert HasSuffix(name + "-fm", "-fm") by {
      assert (name + "-fm")[|name|..] == "-fm";
    }
    var r := TrimFmSuffix(name + "-fm");
    assert |r| == |name|;
    assert r == (r + "-fm")[..|r|] == (name + "-fm")[..|name|] == name;
  }

  /** Dropping the package path twice drops nothing more. */
  lemma AfterLastSlashIdempotent(name: string)
    ensures AfterLastSlash(AfterLastSlash(name)) == AfterLastSlash(name)
  {
  }

  /**
   * The short name of a function from its full name: first the package
   * path is dropped, then a trailing `-fm`; the result has no `/`.
   */
  method FunctionName(fullName: string) returns (name: string)
    ensures name == TrimFmSuffix(AfterLastSlash(fullName))
    ensures '/' !in name
  {
    name := fullName;
    var lastSlash := LastIndexOf(name, '/');
    if lastSlash != -1 {
      name := name[lastSlash + 1..];
    }
    assert name == AfterLastSlash(fullName);
    if HasSuffix(name, "-fm") {
      name := name[..|name| - 3];
    }
    assert '/' !in name by {
      var short := AfterLastSlash(fullName);
      assert forall k :: 0 <= k < |name| ==> name[k] == short[k];
    }
  }

  /** The message for a wrong result: `name(args) = got, want: want`. */
  method ParseError(fullName: string, args: seq<string>, got: string, want: string) returns (message: string)
    ensures message == TrimFmSuffix(AfterLastSlash(fullName)) + "(" + Join(args, ArgSeparator) + ")" +
      " = " + got + ", want: " + want
  {
    var name := FunctionName(fullName);
    var argList := ParseArgs(args);
    message := name + argList + " = " + got + ", want: " + want;
  }

  /**
   * The report for an error check, None when nothing is reported: an
   * error is reported when there is one and its message is not the
   * expected one.
   */
  function ValidateError(testFunction: string, actualError: Option<string>, expected: string): (report: Option<string>)
    ensures report.Some? <==> actualError.Some? && actualError.value != expected
    ensures report.Some? ==>
      report.value == testFunction + " expected the error '" + expected + "' but got '" + actualError.value + "'"
  {
    match actualError
    case Some(message) =>
      if message != expected then
        Some(testFunction + " expected the error '" + expected + "' but got '" + message + "'")
      else None
    case None => None
  }
}
