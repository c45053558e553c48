/** The `Debug` implementation emitted for each node wrapper: one
    `write!` call whose format string is the node's name followed by one
    `{:?}` per field, and whose arguments are the field accessors. */
module DebugFormat {
  import opened Schema

  const Placeholder: string := "{:?}"
  const Separator: string := ", "

  /** The items separated by `sep`, built the way a `padding` flag builds
      them: the separator goes before every item but the first. */
  function Join(items: seq<string>, sep: string): string {
    if |items| == 0 then ""
    else if |items| == 1 then items[0]
    else Join(items[..|items| - 1], sep) + sep + items[|items| - 1]
  }

  function Placeholders(n: nat): (r: seq<string>)
    ensures |r| == n
  {
    seq(n, _ => Placeholder)
  }

  /** The arguments of the emitted call: `self.<field>()` for every field. */
  function FieldCalls(fields: seq<NodeField>): (r: seq<string>)
    ensures |r| == |fields|
  {
    seq(|fields|, i requires 0 <= i < |fields| => "self." + fields[i].name + "()")
  }

  /** The format string of the emitted call. */
  function DebugFormatString(node: Node): string {
    node.name + "(" + Join(Placeholders(|node.fields|), Separator) + ")"
  }

  /** The text of a `write!(f, "<fmt>", <args>)` line. */
  function WriteCall(fmt: string, args: seq<string>): string {
    "        write!(f, \"" + fmt + "\"" + (if args == [] then "" else Separator + Join(args, Separator)) + ")"
  }

  lemma JoinSnoc(items: seq<string>, x: string, sep: string)
    ensures Join(items + [x], sep) == if items == [] then x else Join(items, sep) + sep + x
  {
    assert (items + [x])[..|items|] == items;
  }

  lemma WriteCallShape(head: string, placeholders: string, args: seq<string>)
    requires args != []
    ensures WriteCall(head + placeholders + ")", args)
         == "        write!(f, \"" + head + placeholders + ")\", " + Join(args, Separator) + ")"
  {
  }

  lemma WriteCallNoArgs(head: string)
    ensures WriteCall(head + "" + ")", []) == "        write!(f, \"" + head + ")\"" + ")"
  {
  }

  /** The first `padding` loop of `write_node`: one placeholder per field,
      separated by ", ". */
  method PlaceholderRun(n: nat) returns (out: string)
    ensures out == Join(Placeholders(n), Separator)
  {
    out := "";
    var padding := false;
    var i := 0;
    while i < n
      invariant 0 <= i <= n
      invariant padding <==> i > 0
      invariant out == Join(Placeholders(i), Separator)
    {
      if padding {
        out := out + Separator;
      }
      out := out + Placeholder;
      padding := true;
      JoinSnoc(Placeholders(i), Placeholder, Separator);
      assert Placeholders(i + 1) == Placeholders(i) + [Placeholder];
      i := i + 1;
    }
  }

  /** The second `padding` loop of `write_node`: the field accessor calls,
      separated by ", ". */
  method ArgumentRun(fields: seq<NodeField>) returns (out: string)
    ensures out == Join(FieldCalls(fields), Separator)
  {
    ghost var calls := FieldCalls(fields);
    out := "";
    var padding := false;
    var i := 0;
    while i < |fields|
      invariant 0 <= i <= |fields|
      invariant padding <==> i > 0
      invariant out == Join(calls[..i], Separator)
    {
      var call := "self." + fields[i].name + "()";
      assert call == calls[i];
      JoinSnoc(calls[..i], call, Separator);
      assert calls[..i + 1] == calls[..i] + [call];
      if padding {
        out := out + Separator;
      }
      out := out + call;
      padding := true;
      i := i + 1;
    }
    assert calls[..|fields|] == calls;
  }

  /** The Debug emission of `write_node`: the format string, then (for a node
      with fields) the accessor arguments, each run built by a `padding` loop. */
  method DebugWrite(node: Node) returns (line: string)
    ensures line == WriteCall(DebugFormatString(node), FieldCalls(node.fields))
  {
    line := "        write!(f, \"" + node.name + "(";
    if |node.fields| == 0 {
      line := line + ")\"";
      WriteCallNoArgs(node.name + "(");
    } else {
      var placeholders := PlaceholderRun(|node.fields|);
      var arguments := ArgumentRun(node.fields);
      line := line + placeholders + ")\", " + arguments;
      WriteCallShape(node.name + "(", placeholders, FieldCalls(node.fields));
    }
    line := line + ")";
  }

  // ---------------------------------------------------------------------
  // What the emitted call prints

  function Prepend(prefix: string, r: Option<string>): Option<string> {
    match r
    case None => None
    case Some(s) => Some(prefix + s)
  }

  /** Rust's formatting of a format string whose only directives are `{:?}`:
      each placeholder is replaced by the next argument's debug text; None
      when placeholders and arguments differ in number, which Rust rejects
      at compile time. */
  function ApplyFormat(fmt: string, args: seq<string>): Option<string>
    decreases |fmt|
  {
    if |fmt| >= |Placeholder| && fmt[..|Placeholder|] == Placeholder then
      (if args == [] then None else Prepend(args[0], ApplyFormat(fmt[|Placeholder|..], args[1..])))
    else if fmt == [] then
      (if args == [] then Some("") else None)
    else
      Prepend([fmt[0]], ApplyFormat(fmt[1..], args))
  }

  predicate NoBrace(s: string) {
    forall i :: 0 <= i < |s| ==> s[i] != '{'
  }

  lemma {:induction false} ApplyFormatLiteral(lit: string, rest: string, args: seq<string>)
    requires NoBrace(lit)
    ensures ApplyFormat(lit + rest, args) == Prepend(lit, ApplyFormat(rest, args))
  {
    if lit == [] {
      assert lit + rest == rest;
      match ApplyFormat(rest, args)
      case None =>
      case Some(s) => assert lit + s == s;
    } else {
      var s := lit + rest;
      assert s[0] == lit[0] && s[0] != '{';
      if |s| >= |Placeholder| {
        assert s[..|Placeholder|][0] == s[0];
      }
      assert s[1..] == lit[1..] + rest;
      assert NoBrace(lit[1..]) by {
        forall i | 0 <= i < |lit[1..]| ensures lit[1..][i] != '{' {
          assert lit[1..][i] == lit[i + 1];
        }
      }
      ApplyFormatLiteral(lit[1..], rest, args);
      match ApplyFormat(rest, args)
      case None =>
      case Some(t) => assert [lit[0]] + (lit[1..] + t) == lit + t;
    }
  }

  lemma ApplyFormatPlaceholder(rest: string, args: seq<string>)
    ensures ApplyFormat(Placeholder + rest, args)
         == if args == [] then None else Prepend(args[0], ApplyFormat(rest, args[1..]))
  {
    var s := Placeholder + rest;
    assert s[..|Placeholder|] == Placeholder;
    assert s[|Placeholder|..] == rest;
  }

  lemma {:induction false} JoinCons(x: string, items: seq<string>, sep: string)
    requires items != []
    ensures Join([x] + items, sep) == x + sep + Join(items, sep)
    decreases |items|
  {
    if |items| == 1 {
      assert ([x] + items)[..1] == [x];
    } else {
      var init := items[..|items| - 1];
      JoinCons(x, init, sep);
      assert ([x] + items)[..|items|] == [x] + init;
    }
  }

  /** One placeholder followed by `", "` and the rest of the list: the
      first argument, a separator, then what the rest makes of the others. */
  lemma ApplyPlaceholdersStep(tail: string, args: seq<string>)
    requires args != []
    ensures ApplyFormat(Placeholder + (Separator + tail), args)
         == Prepend(args[0] + Separator, ApplyFormat(tail, args[1..]))
  {
    ApplyFormatPlaceholder(Separator + tail, args);
    ApplyFormatLiteral(Separator, tail, args[1..]);
    match ApplyFormat(tail, args[1..])
    case None =>
    case Some(t) => assert args[0] + (Separator + t) == (args[0] + Separator) + t;
  }

  /** The placeholder list, closed by `)`, consumes exactly `n` arguments. */
  lemma {:induction false} ApplyPlaceholders(n: nat, args: seq<string>)
    ensures ApplyFormat(Join(Placeholders(n), Separator) + ")", args)
         == if |args| == n then Some(Join(args, Separator) + ")") else None
  {
    if n == 0 {
      assert Join(Placeholders(n), Separator) + ")" == ")" + "";
      ApplyFormatLiteral(")", "", args);
      assert ")" + "" == "" + ")";
    } else if n == 1 {
      assert Placeholders(n) == [Placeholder];
      assert Join(Placeholders(n), Separator) + ")" == Placeholder + ")";
      ApplyFormatPlaceholder(")", args);
      if args != [] {
        ApplyFormatLiteral(")", "", args[1..]);
        assert ")" + "" == ")";
      }
    } else {
      var tail := Placeholders(n - 1);
      assert Placeholders(n) == [Placeholder] + tail;
      JoinCons(Placeholder, tail, Separator);
      var rest := Join(tail, Separator) + ")";
      assert Join(Placeholders(n), Separator) + ")" == Placeholder + (Separator + rest);
      if args == [] {
        ApplyFormatPlaceholder(Separator + rest, args);
      } else {
        ApplyPlaceholders(n - 1, args[1..]);
        ApplyPlaceholdersStep(rest, args);
        if |args| == n {
          JoinCons(args[0], args[1..], Separator);
          assert [args[0]] + args[1..] == args;
          var j := Join(args[1..], Separator);
          assert (args[0] + Separator) + (j + ")") == (args[0] + Separator + j) + ")";
        }
      }
    }
  }

  /** The emitted format, applied to the debug texts of the fields, prints
      the node's name and the field texts in parentheses, separated by
      ", " (`Name()` for a node without fields); with any other number of
      arguments it does not format at all. */
  lemma DebugFormatPrintsFields(node: Node, values: seq<string>)
    requires NoBrace(node.name)
    ensures ApplyFormat(DebugFormatString(node), values)
         == if |values| == |node.fields|
            then Some(node.name + "(" + Join(values, Separator) + ")")
            else None
  {
    var rest := Join(Placeholders(|node.fields|), Separator) + ")";
    assert DebugFormatString(node) == (node.name + "(") + rest;
    if |values| == |node.fields| {
      var j := Join(values, Separator);
      assert (node.name + "(") + (j + ")") == node.name + "(" + j + ")";
    }
    assert NoBrace(node.name + "(");
    ApplyFormatLiteral(node.name + "(", rest, values);
    ApplyPlaceholders(|node.fields|, values);
  }

  /** The emitted call passes exactly one argument per placeholder, so it
      formats; the arguments are the field accessors in declaration order. */
  lemma DebugCallFormats(node: Node)
    requires NoBrace(node.name)
    ensures ApplyFormat(DebugFormatString(node), FieldCalls(node.fields)).Some?
  {
    DebugFormatPrintsFields(node, FieldCalls(node.fields));
  }
}
