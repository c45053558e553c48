/** The two naming transforms applied to a node's CamelCase name:
    `struct_name` gives the lower-case suffix of the C struct and of the
    visitor methods (`CallNode` becomes `_call_node`, so `yp_call_node_t`
    and `visit_call_node`), `type_name` gives the tag constant
    (`YP_NODE_CALL_NODE`). Case mapping is that of ASCII. */
module Naming {
  import opened Schema

  predicate IsUpper(c: char) {
    'A' <= c <= 'Z'
  }

  predicate IsLower(c: char) {
    'a' <= c <= 'z'
  }

  function ToLower(c: char): (r: char)
    ensures !IsUpper(r)
    ensures IsUpper(c) ==> IsLower(r)
  {
    if IsUpper(c) then (c as int + 32) as char else c
  }

  function ToUpper(c: char): (r: char)
    ensures !IsLower(r)
    ensures IsLower(c) ==> IsUpper(r)
  {
    if IsLower(c) then (c as int - 32) as char else c
  }

  function UpperString(s: string): (r: string)
    ensures |r| == |s|
    ensures forall i :: 0 <= i < |s| ==> r[i] == ToUpper(s[i])
  {
    seq(|s|, i requires 0 <= i < |s| => ToUpper(s[i]))
  }

  function CountUpper(s: string): nat {
    if s == [] then 0 else (if IsUpper(s[0]) then 1 else 0) + CountUpper(s[1..])
  }

  predicate NoUnderscore(s: string) {
    forall i :: 0 <= i < |s| ==> s[i] != '_'
  }

  lemma NodeNameHasNoUnderscore(s: string)
    requires IsNodeName(s)
    ensures NoUnderscore(s)
  {
  }

  // ---------------------------------------------------------------------
  // struct_name

  /** What `struct_name` emits for one input character. */
  function StructPiece(c: char): string {
    if IsUpper(c) then ['_', ToLower(c)] else [ToLower(c)]
  }

  /** The specification of `struct_name`. */
  function StructNameOf(s: string): string {
    if s == [] then [] else StructPiece(s[0]) + StructNameOf(s[1..])
  }

  lemma {:induction false} StructNameSnoc(s: string, c: char)
    ensures StructNameOf(s + [c]) == StructNameOf(s) + StructPiece(c)
  {
    if s != [] {
      assert (s + [c])[1..] == s[1..] + [c];
      StructNameSnoc(s[1..], c);
    }
  }

  /** `struct_name`: pushes `_` before every upper-case character, then the
      character in lower case. */
  method StructName(name: string) returns (result: string)
    ensures result == StructNameOf(name)
  {
    result := [];
    var i := 0;
    while i < |name|
      invariant 0 <= i <= |name|
      invariant result == StructNameOf(name[..i])
    {
      var c := name[i];
      if IsUpper(c) {
        result := result + ['_'];
      }
      result := result + [ToLower(c)];
      StructNameSnoc(name[..i], c);
      assert name[..i + 1] == name[..i] + [c];
      i := i + 1;
    }
    assert name[..|name|] == name;
  }

  /** One output character per input character plus one separator per
      upper-case letter. */
  lemma {:induction false} StructNameLength(s: string)
    ensures |StructNameOf(s)| == |s| + CountUpper(s)
  {
    if s != [] {
      StructNameLength(s[1..]);
    }
  }

  /** The result holds no upper-case letter. */
  lemma {:induction false} StructNameIsLowerCase(s: string)
    ensures forall i :: 0 <= i < |StructNameOf(s)| ==> !IsUpper(StructNameOf(s)[i])
  {
    if s != [] {
      StructNameIsLowerCase(s[1..]);
      var r := StructNameOf(s);
      assert r == StructPiece(s[0]) + StructNameOf(s[1..]);
      forall i | 0 <= i < |r| ensures !IsUpper(r[i]) {
        if i >= |StructPiece(s[0])| {
          assert r[i] == StructNameOf(s[1..])[i - |StructPiece(s[0])|];
        }
      }
    }
  }

  /** A name that begins with an upper-case letter gets a leading `_`:
      the emitted C names rely on it (`yp` + `_call_node` + `_t`). */
  lemma StructNameLeadingSeparator(s: string)
    requires |s| > 0 && IsUpper(s[0])
    ensures |StructNameOf(s)| >= 2
    ensures StructNameOf(s)[..2] == ['_', ToLower(s[0])]
  {
    assert StructNameOf(s) == ['_', ToLower(s[0])] + StructNameOf(s[1..]);
  }

  /** Inverse of `struct_name`: `_x` stands for `X`, any other character for itself. */
  function StructNameDecode(r: string): string
    decreases |r|
  {
    if r == [] then []
    else if r[0] == '_' && |r| >= 2 then [ToUpper(r[1])] + StructNameDecode(r[2..])
    else [r[0]] + StructNameDecode(r[1..])
  }

  lemma {:induction false} StructNameRoundTrip(s: string)
    requires NoUnderscore(s)
    ensures StructNameDecode(StructNameOf(s)) == s
  {
    if s != [] {
      var r := StructNameOf(s);
      assert NoUnderscore(s[1..]) by {
        forall i | 0 <= i < |s[1..]| ensures s[1..][i] != '_' {
          assert s[1..][i] == s[i + 1];
        }
      }
      StructNameRoundTrip(s[1..]);
      if IsUpper(s[0]) {
        assert r == ['_', ToLower(s[0])] + StructNameOf(s[1..]);
        assert r[2..] == StructNameOf(s[1..]);
      } else {
        assert r == [s[0]] + StructNameOf(s[1..]);
        assert r[1..] == StructNameOf(s[1..]);
      }
      assert s == [s[0]] + s[1..];
    }
  }

  /** Distinct node names give distinct struct names. */
  lemma StructNameInjective(a: string, b: string)
    requires NoUnderscore(a) && NoUnderscore(b)
    requires StructNameOf(a) == StructNameOf(b)
    ensures a == b
  {
    StructNameRoundTrip(a);
    StructNameRoundTrip(b);
  }

  // ---------------------------------------------------------------------
  // type_name

  const TypePrefix: string := "YP_NODE"

  /** What `type_name` emits for one input character. */
  function TypePiece(c: char): string {
    if IsUpper(c) then ['_', ToUpper(c)] else [ToUpper(c)]
  }

  function TypeSuffix(s: string): string {
    if s == [] then [] else TypePiece(s[0]) + TypeSuffix(s[1..])
  }

  /** The specification of `type_name`. */
  function TypeNameOf(s: string): string {
    TypePrefix + TypeSuffix(s)
  }

  lemma {:induction false} TypeSuffixSnoc(s: string, c: char)
    ensures TypeSuffix(s + [c]) == TypeSuffix(s) + TypePiece(c)
  {
    if s != [] {
      assert (s + [c])[1..] == s[1..] + [c];
      TypeSuffixSnoc(s[1..], c);
    }
  }

  /** `type_name`: starts from `YP_NODE`, pushes `_` before every upper-case
      character, then the character in upper case. */
  method TypeName(name: string) returns (result: string)
    ensures result == TypeNameOf(name)
  {
    result := TypePrefix;
    var i := 0;
    while i < |name|
      invariant 0 <= i <= |name|
      invariant result == TypePrefix + TypeSuffix(name[..i])
    {
      var c := name[i];
      if IsUpper(c) {
        result := result + ['_'];
      }
      result := result + [ToUpper(c)];
      TypeSuffixSnoc(name[..i], c);
      assert name[..i + 1] == name[..i] + [c];
      i := i + 1;
    }
    assert name[..|name|] == name;
  }

  /** The tag constant is `YP_NODE` followed by the struct name in upper case. */
  lemma {:induction false} TypeNameIsUpperStructName(s: string)
    ensures TypeNameOf(s) == TypePrefix + UpperString(StructNameOf(s))
  {
    TypeSuffixIsUpperStructName(s);
  }

  lemma {:induction false} TypeSuffixIsUpperStructName(s: string)
    ensures TypeSuffix(s) == UpperString(StructNameOf(s))
  {
    if s != [] {
      TypeSuffixIsUpperStructName(s[1..]);
      var p := StructPiece(s[0]);
      var t := StructNameOf(s[1..]);
      assert UpperString(p + t) == UpperString(p) + UpperString(t);
      assert UpperString(p) == TypePiece(s[0]);
    }
  }

  /** Inverse of the part of `type_name` after the prefix: `_X` stands for
      `X`, any other character for its lower-case form. */
  function TypeSuffixDecode(r: string): string
    decreases |r|
  {
    if r == [] then []
    else if r[0] == '_' && |r| >= 2 then [r[1]] + TypeSuffixDecode(r[2..])
    else [ToLower(r[0])] + TypeSuffixDecode(r[1..])
  }

  /** Inverse of `type_name`; None when the prefix is missing. */
  function TypeNameDecode(r: string): Option<string> {
    if |r| >= |TypePrefix| && r[..|TypePrefix|] == TypePrefix
    then Some(TypeSuffixDecode(r[|TypePrefix|..]))
    else None
  }

  lemma {:induction false} TypeSuffixRoundTrip(s: string)
    requires NoUnderscore(s)
    ensures TypeSuffixDecode(TypeSuffix(s)) == s
  {
    if s != [] {
      var r := TypeSuffix(s);
      assert NoUnderscore(s[1..]) by {
        forall i | 0 <= i < |s[1..]| ensures s[1..][i] != '_' {
          assert s[1..][i] == s[i + 1];
        }
      }
      TypeSuffixRoundTrip(s[1..]);
      if IsUpper(s[0]) {
        assert r == ['_', s[0]] + TypeSuffix(s[1..]);
        assert r[2..] == TypeSuffix(s[1..]);
      } else {
        assert r == [ToUpper(s[0])] + TypeSuffix(s[1..]);
        assert r[1..] == TypeSuffix(s[1..]);
      }
      assert s == [s[0]] + s[1..];
    }
  }

  lemma TypeNameRoundTrip(s: string)
    requires NoUnderscore(s)
    ensures TypeNameDecode(TypeNameOf(s)) == Some(s)
  {
    var r := TypeNameOf(s);
    assert r[..|TypePrefix|] == TypePrefix;
    assert r[|TypePrefix|..] == TypeSuffix(s);
    TypeSuffixRoundTrip(s);
  }

  /** Distinct node names give distinct tag constants. */
  lemma TypeNameInjective(a: string, b: string)
    requires NoUnderscore(a) && NoUnderscore(b)
    requires TypeNameOf(a) == TypeNameOf(b)
    ensures a == b
  {
    TypeNameRoundTrip(a);
    TypeNameRoundTrip(b);
  }

  lemma StructNameCons(c: char, s: string)
    ensures StructNameOf([c] + s) == StructPiece(c) + StructNameOf(s)
  {
    assert ([c] + s)[1..] == s;
  }

  lemma TypeSuffixCons(c: char, s: string)
    ensures TypeSuffix([c] + s) == TypePiece(c) + TypeSuffix(s)
  {
    assert ([c] + s)[1..] == s;
  }

  /** The C struct and visitor names the emitted code builds for `CallNode`. */
  lemma CallNodeStructName()
    ensures "yp" + StructNameOf("CallNode") + "_t" == "yp_call_node_t"
    ensures "visit" + StructNameOf("CallNode") == "visit_call_node"
  {
    CallNodeStructSuffix();
  }

  lemma {:induction false} StructNameAppend(a: string, b: string)
    ensures StructNameOf(a + b) == StructNameOf(a) + StructNameOf(b)
  {
    if a != [] {
      assert (a + b)[1..] == a[1..] + b;
      StructNameAppend(a[1..], b);
    } else {
      assert a + b == b;
    }
  }

  lemma CallNodeStructSuffix()
    ensures StructNameOf("CallNode") == "_call_node"
  {
    assert "CallNode" == "Call" + "Node";
    StructNameAppend("Call", "Node");
    CallStructName();
    NodeStructName();
  }

  lemma CallStructName()
    ensures StructNameOf("Call") == "_call"
  {
    StructNameCons('l', "");
    assert StructNameOf("l") == "l";
    StructNameCons('l', "l");
    assert StructNameOf("ll") == "ll";
    StructNameCons('a', "ll");
    assert StructNameOf("all") == "all";
    StructNameCons('C', "all");
  }

  lemma NodeStructName()
    ensures StructNameOf("Node") == "_node"
  {
    StructNameCons('e', "");
    assert StructNameOf("e") == "e";
    StructNameCons('d', "e");
    assert StructNameOf("de") == "de";
    StructNameCons('o', "de");
    assert StructNameOf("ode") == "ode";
    StructNameCons('N', "ode");
  }

  lemma {:induction false} TypeSuffixAppend(a: string, b: string)
    ensures TypeSuffix(a + b) == TypeSuffix(a) + TypeSuffix(b)
  {
    if a != [] {
      assert (a + b)[1..] == a[1..] + b;
      TypeSuffixAppend(a[1..], b);
    } else {
      assert a + b == b;
    }
  }

  /** The tag constant the emitted code declares for `CallNode`. */
  lemma CallNodeTypeName()
    ensures TypeNameOf("CallNode") == "YP_NODE_CALL_NODE"
  {
    assert "CallNode" == "Call" + "Node";
    TypeSuffixAppend("Call", "Node");
    CallTypeSuffix();
    NodeTypeSuffix();
  }

  lemma CallTypeSuffix()
    ensures TypeSuffix("Call") == "_CALL"
  {
    TypeSuffixCons('l', "");
    assert TypeSuffix("l") == "L";
    TypeSuffixCons('l', "l");
    assert TypeSuffix("ll") == "LL";
    TypeSuffixCons('a', "ll");
    assert TypeSuffix("all") == "ALL";
    TypeSuffixCons('C', "all");
  }

  lemma NodeTypeSuffix()
    ensures TypeSuffix("Node") == "_NODE"
  {
    TypeSuffixCons('e', "");
    assert TypeSuffix("e") == "E";
    TypeSuffixCons('d', "e");
    assert TypeSuffix("de") == "DE";
    TypeSuffixCons('o', "de");
    assert TypeSuffix("ode") == "ODE";
    TypeSuffixCons('N', "ode");
  }
}
