/**
 * The reading of a `swiftc -dump-ast` listing by `extractSwiftClasses`
 * (packages/hyperloop-ios-metabase/lib/swift.js): the listing is split into
 * lines, and each trimmed line updates the current class, the current
 * method, the classes collected so far and the set of class names the
 * metabase knows.  Only public (or open) classes, properties and methods
 * are kept.
 *
 * Every class object also carries `thirdparty: true` and `language: 'swift'`;
 * these constants are implied by `SwiftClass`.
 */
module IosSwiftAst {
  import opened Wrappers
  import opened Strs
  import opened JsStrings
  import opened IosSwift

  // ---------------------------------------------------------------- what is collected

  datatype Argument = Argument(name: string, typ: TypeInfo)

  /** A method: `selector` and `arguments` are absent when its name starts with '('. */
  datatype SwiftMethod = SwiftMethod(
    name: string, instance: bool, selector: Option<string>,
    arguments: Option<seq<Argument>>, returnType: Option<TypeInfo>)

  /** A property; its type is absent when the declaration has no `type=` token. */
  datatype Property = Property(name: string, typ: Option<TypeInfo>)

  datatype SwiftClass = SwiftClass(
    name: string, superclass: Option<string>,
    methods: map<string, SwiftMethod>, properties: map<string, Property>,
    filename: string, framework: string)

  /**
   * The method object the parameter and result lines go to: one stored in
   * a collected class, or one whose class was since replaced by a class of
   * the same name (it is still updated, but nothing sees it any more).
   */
  datatype MethodRef = InClass(cls: string, name: string) | Detached(hasArguments: bool)

  /**
   * The variables of the line loop: the classes collected, `classdef`,
   * `methodef`, and the names in the metabase's `classes` object (None when
   * the metabase has none).
   */
  datatype State = State(
    classes: map<string, SwiftClass>, classdef: Option<string>,
    methodef: Option<MethodRef>, known: Option<set<string>>)

  /** Where the line loop starts: nothing collected, no current class or method. */
  function Initial(metabase: Env): (st: State)
    ensures st.classes == map[] && st.classdef.None? && st.methodef.None?
  {
    State(map[], None, None, metabase.classes)
  }

  /** The metabase as `resolveType` sees it at this point of the loop. */
  function EnvOf(metabase: Env, st: State): Env
  {
    Env(st.known, metabase.structs, metabase.typedefs)
  }

  // ---------------------------------------------------------------- tokens and regular expressions

  /** `PUBLIC_ACCESS_PATTERN.test(t)`. */
  predicate IsPublicToken(t: string)
  {
    Contains(t, "access=public") || Contains(t, "access=open")
  }

  predicate HasPublic(toks: seq<string>)
  {
    exists k :: 0 <= k < |toks| && IsPublicToken(toks[k])
  }

  /** `tok.slice(2)`: the tokens after the keyword and the name. */
  function Attrs(tok: seq<string>): (r: seq<string>)
    ensures |tok| >= 2 ==> r == tok[2..]
  {
    if |tok| < 2 then [] else tok[2..]
  }

  /** `tok[1].replace(/"/g, '').trim()`; a missing second token is a TypeError. */
  function DeclName(tok: seq<string>): (r: Result<string>)
    ensures r.Ok? <==> |tok| >= 2
  {
    if |tok| < 2 then Err("TypeError: replace") else Ok(Trim(RemoveChar(tok[1], '"')))
  }

  /** The first position from `j` on where `at` matches, as a non-anchored `exec` searches. */
  function FirstMatch<T>(s: string, j: nat, at: (string, nat) -> Option<T>): (r: Option<T>)
    ensures r.Some? ==> exists k :: j <= k <= |s| && at(s, k) == r
    decreases |s| + 1 - j
  {
    if j > |s| then None
    else if at(s, j).Some? then at(s, j)
    else FirstMatch(s, j + 1, at)
  }

  /** `/type='(\w+)'/` at `j`. */
  function TypeReAt(s: string, j: nat): (r: Option<string>)
    ensures r.Some? ==> r.value != []
  {
    if !MatchAt(s, "type='", j) then None
    else
      var e := WordRunEnd(s, j + 6);
      if e > j + 6 && e < |s| && s[e] == '\'' then Some(s[j + 6..e]) else None
  }

  predicate IsIdentStart(c: char)
  {
    IsLetter(c) || c == '_'
  }

  /** The end of the greedy `[A-Za-z_]\w*(\.[A-Za-z_]\w*)*` that starts at `q`. */
  function DottedEnd(s: string, q: nat): (e: nat)
    requires q <= |s|
    ensures q <= e <= |s|
    decreases |s| - q
  {
    var e := WordRunEnd(s, q);
    if e + 1 < |s| && s[e] == '.' && IsIdentStart(s[e + 1]) then DottedEnd(s, e + 1) else e
  }

  /**
   * PARAMETER_RE at `j`: the parameter name and, when the optional
   * ` type='…'` group matched after the optional ` apiName=…`, the type name.
   * The groups after it are optional and change nothing that is read.
   */
  function ParameterAt(s: string, j: nat): (r: Option<(string, Option<string>)>)
    ensures r.Some? ==> r.value.0 != []
  {
    if !MatchAt(s, "parameter \"", j) then None
    else
      var a := j + 11;
      var b := WordRunEnd(s, a);
      if b == a || b >= |s| || s[b] != '"' then None
      else
        var p := b + 1;
        var p2 := if MatchAt(s, " apiName=", p) && WordRunEnd(s, p + 9) > p + 9 then WordRunEnd(s, p + 9) else p;
        var q := p2 + 7;
        var typ :=
          if MatchAt(s, " type='", p2) && q < |s| && IsIdentStart(s[q]) then
            var e := DottedEnd(s, q);
            if e < |s| && s[e] == '\'' then Some(s[q..e]) else None
          else None;
        Some((s[a..b], typ))
  }

  /** PATTERN_NAMED_RE at `j`: the type name and the parameter name. */
  function PatternNamedAt(s: string, j: nat): Option<(string, string)>
  {
    if !MatchAt(s, "pattern_named type='", j) then None
    else
      var a := j + 20;
      var b := WordRunEnd(s, a);
      if b == a || !MatchAt(s, "' '", b) then None
      else
        var c := b + 3;
        var d := WordRunEnd(s, c);
        if d == c || d >= |s| || s[d] != '\'' then None else Some((s[a..b], s[c..d]))
  }

  /** The end of the run of characters `.` matches (all but line terminators) from `p`. */
  function LineRunEnd(s: string, p: nat): (e: nat)
    requires p <= |s|
    ensures p <= e <= |s|
    decreases |s| - p
  {
    if p < |s| && !IsLineTerminator(s[p]) then LineRunEnd(s, p + 1) else p
  }

  /** COMPONENT_RE at `j`: the greedy `(.*)` ends at the last quote before a line terminator. */
  function ComponentAt(s: string, j: nat): (r: Option<string>)
  {
    if !MatchAt(s, "component id='", j) then None
    else
      var p := j + 14;
      var e := LineRunEnd(s, p);
      match LastIndexOfUpTo(s, '\'', e - 1)
      case None => None
      case Some(q) => if q < p then None else Some(s[p..q])
  }

  // ---------------------------------------------------------------- the token loops of one line

  /** The token after the last `inherits:` token (absent when that was the last token). */
  function Superclass(toks: seq<string>, cur: Option<string>): Option<string>
  {
    if toks == [] then cur
    else if !IsPublicToken(toks[0]) && StartsWith(toks[0], "inherits:") then
      Superclass(toks[1..], if |toks| > 1 then Some(toks[1]) else None)
    else Superclass(toks[1..], cur)
  }

  /** The type of a property: the last `type=` token's resolved type; an unresolvable one ends the run. */
  function VarType(toks: seq<string>, env: Env, cur: Option<TypeInfo>): Result<Option<TypeInfo>>
  {
    if toks == [] then Ok(cur)
    else if IsPublicToken(toks[0]) || !StartsWith(toks[0], "type=") then VarType(toks[1..], env, cur)
    else
      match FirstMatch(toks[0], 0, TypeReAt)
      case None => Err("TypeError: null")
      case Some(v) =>
        match ResolveType(env, v)
        case Err(e) => Err(e)
        case Ok(t) => VarType(toks[1..], env, Some(t))
  }

  /** Whether a `type='<class>.Type` token marks a class method; a `type=` token outside a class is a TypeError. */
  function ClassMethodMarker(toks: seq<string>, classdef: Option<string>, cur: bool): Result<bool>
  {
    if toks == [] then Ok(cur)
    else if IsPublicToken(toks[0]) || !StartsWith(toks[0], "type=") then ClassMethodMarker(toks[1..], classdef, cur)
    else if classdef.None? then Err("TypeError: name")
    else ClassMethodMarker(toks[1..], classdef, cur || StartsWith(toks[0], "type='" + classdef.value + ".Type"))
  }

  /** `":" + t` for every label, concatenated. */
  function SelectorSuffix(labels: seq<string>): string
  {
    if labels == [] then "" else ":" + labels[0] + SelectorSuffix(labels[1..])
  }

  /** The index of the first '(' in `name`, or -1. */
  function ParenIndex(name: string): int
  {
    match Find(name, "(")
    case Some(i) => i
    case None => -1
  }

  /**
   * The method name, selector and argument list a `func_decl` name gives:
   * the name is cut at its first '(' and the selector adds every label
   * after the first.  `if (i)` lets the index -1 of a name without '(' through.
   */
  function MethodNaming(name: string): (r: (string, Option<string>, Option<seq<Argument>>))
  {
    var i := ParenIndex(name);
    if i != 0 then
      var m := Substring(name, 0, i);
      (m, Some(m + SelectorSuffix(SplitChar(Substring(name, i + 1, |name| - 1), ':')[1..])), Some([]))
    else (name, None, None)
  }

  /**
   * The method name is a prefix of the `func_decl` name; a name that opens
   * with '(' is kept whole, with neither selector nor arguments; any other
   * gets a selector that starts with the method name and no arguments yet.
   */
  lemma MethodNamingShape(name: string)
    ensures var r := MethodNaming(name);
      && |r.0| <= |name| && r.0 == name[..|r.0|]
      && (r.1.None? <==> Find(name, "(") == Some(0))
      && (r.1.None? ==> r.0 == name && r.2.None?)
      && (r.1.Some? ==> StartsWith(r.1.value, r.0) && r.2 == Some([]))
  {
  }

  // ---------------------------------------------------------------- one line

  function ClassDecl(framework: string, filename: string, st: State, line: string): (r: Result<State>)
  {
    var tok := SplitChar(line, ' ');
    match DeclName(tok)
    case Err(e) => Err(e)
    case Ok(name) =>
      if !HasPublic(Attrs(tok)) then Ok(st.(classdef := None))
      else if st.known.None? then Err("TypeError: classes")
      else
        var cls := SwiftClass(name, Superclass(Attrs(tok), None), map[], map[], filename, framework);
        var methodef :=
          match st.methodef
          case Some(InClass(c, m)) =>
            if c == name then Some(Detached(c in st.classes && m in st.classes[c].methods && st.classes[c].methods[m].arguments.Some?))
            else st.methodef
          case _ => st.methodef;
        Ok(State(st.classes[name := cls], Some(name), methodef, Some(st.known.value + {name})))
  }

  function VarDecl(metabase: Env, st: State, line: string): (r: Result<State>)
    requires st.classdef.Some?
  {
    var tok := SplitChar(line, ' ');
    match DeclName(tok)
    case Err(e) => Err(e)
    case Ok(name) =>
      match VarType(Attrs(tok), EnvOf(metabase, st), None)
      case Err(e) => Err(e)
      case Ok(typ) =>
        var c := st.classdef.value;
        if HasPublic(Attrs(tok)) && c in st.classes then
          var cls := st.classes[c];
          Ok(st.(classes := st.classes[c := cls.(properties := cls.properties[name := Property(name, typ)])]))
        else Ok(st)
  }

  function FuncDecl(st: State, line: string): (r: Result<State>)
  {
    var tok := SplitChar(line, ' ');
    match DeclName(tok)
    case Err(e) => Err(e)
    case Ok(name) =>
      match ClassMethodMarker(Attrs(tok), st.classdef, false)
      case Err(e) => Err(e)
      case Ok(marked) =>
        var (m, selector, arguments) := MethodNaming(name);
        var decl := SwiftMethod(m, !(tok[|tok| - 1] == "type" || marked), selector, arguments, None);
        if st.classdef.Some? && HasPublic(Attrs(tok)) && st.classdef.value in st.classes then
          var c := st.classdef.value;
          var cls := st.classes[c];
          Ok(st.(classes := st.classes[c := cls.(methods := cls.methods[m := decl])],
                 methodef := Some(InClass(c, m))))
        else Ok(st.(methodef := None))
  }

  /** Applies `f` to the current method object, wherever it is stored. */
  function UpdateMethod(st: State, f: SwiftMethod -> SwiftMethod): State
  {
    match st.methodef
    case Some(InClass(c, m)) =>
      if c in st.classes && m in st.classes[c].methods then
        var cls := st.classes[c];
        st.(classes := st.classes[c := cls.(methods := cls.methods[m := f(cls.methods[m])])])
      else st
    case _ => st
  }

  /** Whether the current method object has an argument list to push to. */
  predicate HasArguments(st: State)
  {
    match st.methodef
    case Some(InClass(c, m)) => c in st.classes && m in st.classes[c].methods && st.classes[c].methods[m].arguments.Some?
    case Some(Detached(has)) => has
    case None => false
  }

  function PushArgument(m: SwiftMethod, arg: Argument): SwiftMethod
  {
    if m.arguments.Some? then m.(arguments := Some(m.arguments.value + [arg])) else m
  }

  /** A parameter or named pattern: its type is resolved, then it is pushed to the arguments. */
  function AddArgument(metabase: Env, st: State, name: string, typeName: Option<string>): (r: Result<State>)
  {
    if typeName.None? then Err("TypeError: toLowerCase")
    else
      match ResolveType(EnvOf(metabase, st), typeName.value)
      case Err(e) => Err(e)
      case Ok(t) =>
        if !HasArguments(st) then Err("TypeError: push")
        else Ok(UpdateMethod(st, m => PushArgument(m, Argument(name, t))))
  }

  function SetReturns(m: SwiftMethod, t: TypeInfo): SwiftMethod
  {
    m.(returnType := Some(t))
  }

  /** A `(result` line: the return type is read two lines further down, then the method is closed. */
  function ResultLine(metabase: Env, st: State, lines: seq<string>, index: nat): (r: Result<State>)
    requires index < |lines|
  {
    if index + 1 >= |lines| then Err("TypeError: trim")
    else if !StartsWith(Trim(lines[index + 1]), "(type_ident") then Ok(st)
    else if index + 2 >= |lines| then Err("TypeError: trim")
    else if !StartsWith(Trim(lines[index + 2]), "(component ") then Ok(st)
    else
      match FirstMatch(Trim(lines[index + 2]), 0, ComponentAt)
      case None => Err("TypeError: null")
      case Some(v) =>
        match ResolveType(EnvOf(metabase, st), v)
        case Err(e) => Err(e)
        case Ok(t) => Ok(UpdateMethod(st, m => SetReturns(m, t)).(methodef := None))
  }

  /** One iteration of the line loop. */
  function Step(framework: string, filename: string, metabase: Env, st: State, lines: seq<string>, index: nat): (r: Result<State>)
    requires index < |lines|
  {
    var line := Trim(lines[index]);
    if line == [] then Ok(st)
    else if StartsWith(line, "(class_decl ") then ClassDecl(framework, filename, st, line)
    else if StartsWith(line, "(var_decl") && st.classdef.Some? then VarDecl(metabase, st, line)
    else if StartsWith(line, "(func_decl ") && !Contains(line, "getter_for=") then FuncDecl(st, line)
    else if st.methodef.None? then Ok(st)
    else if StartsWith(line, "(parameter ") && FirstMatch(line, 0, ParameterAt).Some? then
      var (name, typeName) := FirstMatch(line, 0, ParameterAt).value;
      if name == "self" then Ok(st) else AddArgument(metabase, st, name, typeName)
    else if StartsWith(line, "(pattern_named ") && FirstMatch(line, 0, PatternNamedAt).Some? then
      var (typeName, name) := FirstMatch(line, 0, PatternNamedAt).value;
      AddArgument(metabase, st, name, Some(typeName))
    else if StartsWith(line, "(result") then ResultLine(metabase, st, lines, index)
    else Ok(st)
  }

  /** The lines from `from` on, one step each; the first error ends the run. */
  function Run(framework: string, filename: string, metabase: Env, st: State, lines: seq<string>, from: nat): (r: Result<State>)
    requires from <= |lines|
    decreases |lines| - from
  {
    if from == |lines| then Ok(st)
    else
      match Step(framework, filename, metabase, st, lines, from)
      case Err(e) => Err(e)
      case Ok(next) => Run(framework, filename, metabase, next, lines, from + 1)
  }

  /**
   * A blank line changes nothing; outside a method neither does a line
   * that is not a class declaration, a variable declaration inside a
   * class, or a function declaration that is no getter.
   */
  lemma StepSkips(framework: string, filename: string, metabase: Env, st: State, lines: seq<string>, index: nat)
    requires index < |lines|
    ensures Trim(lines[index]) == [] ==> Step(framework, filename, metabase, st, lines, index) == Ok(st)
    ensures st.methodef.None? && !StartsWith(Trim(lines[index]), "(class_decl ")
            && !(StartsWith(Trim(lines[index]), "(var_decl") && st.classdef.Some?)
            && !(StartsWith(Trim(lines[index]), "(func_decl ") && !Contains(Trim(lines[index]), "getter_for="))
            ==> Step(framework, filename, metabase, st, lines, index) == Ok(st)
  {
  }

  /** A listing whose remaining lines are all blank leaves the state as it is. */
  lemma {:induction false} RunBlank(framework: string, filename: string, metabase: Env, st: State, lines: seq<string>, from: nat)
    requires from <= |lines|
    requires forall k :: from <= k < |lines| ==> Trim(lines[k]) == []
    ensures Run(framework, filename, metabase, st, lines, from) == Ok(st)
    decreases |lines| - from
  {
    if from < |lines| {
      StepSkips(framework, filename, metabase, st, lines, from);
      RunBlank(framework, filename, metabase, st, lines, from + 1);
    }
  }

  // ---------------------------------------------------------------- the loop

  /** The classes, and the metabase's class names, that reading a whole listing gives. */
  function Extracted(framework: string, filename: string, metabase: Env, buf: string): Result<State>
  {
    Run(framework, filename, metabase, Initial(metabase), SplitChar(buf, '\n'), 0)
  }

  /**
   * `extractSwiftClasses` once the AST listing is in `buf`: the loop over its
   * lines.  The class names it adds to the metabase come back in `known`.
   */
  method ExtractSwiftClasses(framework: string, filename: string, metabase: Env, buf: string)
    returns (r: Result<map<string, SwiftClass>>, known: Option<set<string>>)
    ensures r.Ok? <==> Extracted(framework, filename, metabase, buf).Ok?
    ensures r.Ok? ==> r.value == Extracted(framework, filename, metabase, buf).value.classes
                      && known == Extracted(framework, filename, metabase, buf).value.known
    ensures r.Ok? ==> forall c :: c in r.value ==> ClassOk(framework, filename, c, r.value[c])
    ensures r.Ok? && r.value != map[] ==> known.Some? && r.value.Keys <= known.value
  {
    var lines := SplitChar(buf, '\n');
    var st := Initial(metabase);
    for i := 0 to |lines|
      invariant Run(framework, filename, metabase, st, lines, i) == Extracted(framework, filename, metabase, buf)
      invariant Inv(framework, filename, st)
    {
      var next := Step(framework, filename, metabase, st, lines, i);
      if next.Err? {
        return Err(next.error), st.known;
      }
      StepInv(framework, filename, metabase, st, lines, i);
      st := next.value;
    }
    return Ok(st.classes), st.known;
  }

  // ---------------------------------------------------------------- the invariant

  /** A collected class is stored under its own name, as are its methods and properties. */
  predicate ClassOk(framework: string, filename: string, c: string, cls: SwiftClass)
  {
    cls.name == c && cls.filename == filename && cls.framework == framework
    && (forall m :: m in cls.methods ==> cls.methods[m].name == m)
    && (forall p :: p in cls.properties ==> cls.properties[p].name == p)
  }

  /**
   * What holds between the lines: every class is well formed, the current
   * class and method are stored in the collection, and every collected
   * class is also in the metabase.
   */
  predicate Inv(framework: string, filename: string, st: State)
  {
    (forall c :: c in st.classes ==> ClassOk(framework, filename, c, st.classes[c]))
    && (st.classdef.Some? ==> st.classdef.value in st.classes)
    && (st.methodef.Some? && st.methodef.value.InClass? ==>
          st.methodef.value.cls in st.classes && st.methodef.value.name in st.classes[st.methodef.value.cls].methods)
    && (st.known.None? ==> st.classes == map[])
    && (st.known.Some? ==> st.classes.Keys <= st.known.value)
  }

  lemma ClassDeclInv(framework: string, filename: string, st: State, line: string)
    requires Inv(framework, filename, st)
    requires ClassDecl(framework, filename, st, line).Ok?
    ensures Inv(framework, filename, ClassDecl(framework, filename, st, line).value)
    ensures st.classes.Keys <= ClassDecl(framework, filename, st, line).value.classes.Keys
  {
  }

  /** Replacing a collected class by a well-formed one that keeps its methods keeps the invariant. */
  lemma PutClassInv(framework: string, filename: string, st: State, c: string, cls: SwiftClass)
    requires Inv(framework, filename, st) && c in st.classes
    requires ClassOk(framework, filename, c, cls) && st.classes[c].methods.Keys <= cls.methods.Keys
    ensures Inv(framework, filename, st.(classes := st.classes[c := cls]))
  {
  }

  lemma VarDeclInv(framework: string, filename: string, metabase: Env, st: State, line: string)
    requires Inv(framework, filename, st) && st.classdef.Some?
    requires VarDecl(metabase, st, line).Ok?
    ensures Inv(framework, filename, VarDecl(metabase, st, line).value)
    ensures VarDecl(metabase, st, line).value.classes.Keys == st.classes.Keys
  {
    var tok := SplitChar(line, ' ');
    var c := st.classdef.value;
    if HasPublic(Attrs(tok)) && c in st.classes {
      var name := DeclName(tok).value;
      var typ := VarType(Attrs(tok), EnvOf(metabase, st), None).value;
      var cls := st.classes[c];
      PutClassInv(framework, filename, st, c, cls.(properties := cls.properties[name := Property(name, typ)]));
    }
  }

  lemma FuncDeclInv(framework: string, filename: string, st: State, line: string)
    requires Inv(framework, filename, st)
    requires FuncDecl(st, line).Ok?
    ensures Inv(framework, filename, FuncDecl(st, line).value)
    ensures FuncDecl(st, line).value.classes.Keys == st.classes.Keys
  {
    var tok := SplitChar(line, ' ');
    var name := DeclName(tok).value;
    var marked := ClassMethodMarker(Attrs(tok), st.classdef, false).value;
    var (m, selector, arguments) := MethodNaming(name);
    var decl := SwiftMethod(m, !(tok[|tok| - 1] == "type" || marked), selector, arguments, None);
    if st.classdef.Some? && HasPublic(Attrs(tok)) && st.classdef.value in st.classes {
      PutMethodInv(framework, filename, st, st.classdef.value, decl);
      assert FuncDecl(st, line).value == PutMethod(st, st.classdef.value, decl);
    } else {
      assert FuncDecl(st, line).value == st.(methodef := None);
    }
  }

  /** The state once method `decl` is stored in collected class `c` and becomes the current method. */
  function PutMethod(st: State, c: string, decl: SwiftMethod): State
    requires c in st.classes
  {
    st.(classes := st.classes[c := st.classes[c].(methods := st.classes[c].methods[decl.name := decl])],
        methodef := Some(InClass(c, decl.name)))
  }

  /** Storing a method in a collected class under its own name keeps the invariant and the classes. */
  lemma PutMethodInv(framework: string, filename: string, st: State, c: string, decl: SwiftMethod)
    requires Inv(framework, filename, st) && c in st.classes
    ensures Inv(framework, filename, PutMethod(st, c, decl))
    ensures PutMethod(st, c, decl).classes.Keys == st.classes.Keys
  {
    var cls := st.classes[c];
    PutClassInv(framework, filename, st, c, cls.(methods := cls.methods[decl.name := decl]));
  }

  lemma UpdateMethodInv(framework: string, filename: string, st: State, f: SwiftMethod -> SwiftMethod)
    requires Inv(framework, filename, st)
    requires forall m :: f(m).name == m.name
    ensures Inv(framework, filename, UpdateMethod(st, f))
    ensures UpdateMethod(st, f).classes.Keys == st.classes.Keys
  {
  }

  lemma AddArgumentInv(framework: string, filename: string, metabase: Env, st: State, name: string, typeName: Option<string>)
    requires Inv(framework, filename, st)
    requires AddArgument(metabase, st, name, typeName).Ok?
    ensures Inv(framework, filename, AddArgument(metabase, st, name, typeName).value)
    ensures AddArgument(metabase, st, name, typeName).value.classes.Keys == st.classes.Keys
  {
    var t := ResolveType(EnvOf(metabase, st), typeName.value).value;
    UpdateMethodInv(framework, filename, st, m => PushArgument(m, Argument(name, t)));
  }

  lemma ResultLineInv(framework: string, filename: string, metabase: Env, st: State, lines: seq<string>, index: nat)
    requires index < |lines| && Inv(framework, filename, st)
    requires ResultLine(metabase, st, lines, index).Ok?
    ensures Inv(framework, filename, ResultLine(metabase, st, lines, index).value)
    ensures ResultLine(metabase, st, lines, index).value.classes.Keys == st.classes.Keys
  {
    if StartsWith(Trim(lines[index + 1]), "(type_ident") && StartsWith(Trim(lines[index + 2]), "(component ") {
      var v := FirstMatch(Trim(lines[index + 2]), 0, ComponentAt).value;
      var t := ResolveType(EnvOf(metabase, st), v).value;
      UpdateMethodInv(framework, filename, st, m => SetReturns(m, t));
    }
  }

  /** Every line keeps the invariant, and no line removes a collected class (a redeclared one is replaced). */
  lemma StepInv(framework: string, filename: string, metabase: Env, st: State, lines: seq<string>, index: nat)
    requires index < |lines| && Inv(framework, filename, st)
    requires Step(framework, filename, metabase, st, lines, index).Ok?
    ensures Inv(framework, filename, Step(framework, filename, metabase, st, lines, index).value)
    ensures st.classes.Keys <= Step(framework, filename, metabase, st, lines, index).value.classes.Keys
  {
    var line := Trim(lines[index]);
    if line == [] {
    } else if StartsWith(line, "(class_decl ") {
      ClassDeclInv(framework, filename, st, line);
    } else if StartsWith(line, "(var_decl") && st.classdef.Some? {
      VarDeclInv(framework, filename, metabase, st, line);
    } else if StartsWith(line, "(func_decl ") && !Contains(line, "getter_for=") {
      FuncDeclInv(framework, filename, st, line);
    } else if st.methodef.None? {
    } else if StartsWith(line, "(parameter ") && FirstMatch(line, 0, ParameterAt).Some? {
      var (name, typeName) := FirstMatch(line, 0, ParameterAt).value;
      if name != "self" {
        AddArgumentInv(framework, filename, metabase, st, name, typeName);
      }
    } else if StartsWith(line, "(pattern_named ") && FirstMatch(line, 0, PatternNamedAt).Some? {
      var (typeName, name) := FirstMatch(line, 0, PatternNamedAt).value;
      AddArgumentInv(framework, filename, metabase, st, name, Some(typeName));
    } else if StartsWith(line, "(result") {
      ResultLineInv(framework, filename, metabase, st, lines, index);
    }
  }

  // ---------------------------------------------------------------- what one line does

  /** A class collected from one line is still collected at the end of the listing. */
  lemma {:induction false} RunKeepsClasses(framework: string, filename: string, metabase: Env, st: State, lines: seq<string>, from: nat)
    requires from <= |lines| && Inv(framework, filename, st)
    requires Run(framework, filename, metabase, st, lines, from).Ok?
    ensures st.classes.Keys <= Run(framework, filename, metabase, st, lines, from).value.classes.Keys
    decreases |lines| - from
  {
    if from < |lines| {
      var next := RunStep(framework, filename, metabase, st, lines, from);
      RunKeepsClasses(framework, filename, metabase, next, lines, from + 1);
    }
  }

  /** The first line of a listing read without error keeps the invariant and every class, and the rest is read from the state after it. */
  lemma RunStep(framework: string, filename: string, metabase: Env, st: State, lines: seq<string>, from: nat)
    returns (next: State)
    requires from < |lines| && Inv(framework, filename, st)
    requires Run(framework, filename, metabase, st, lines, from).Ok?
    ensures Inv(framework, filename, next) && st.classes.Keys <= next.classes.Keys
    ensures Run(framework, filename, metabase, st, lines, from) == Run(framework, filename, metabase, next, lines, from + 1)
  {
    RunNext(framework, filename, metabase, st, lines, from);
    next := Step(framework, filename, metabase, st, lines, from).value;
    StepInv(framework, filename, metabase, st, lines, from);
  }

  /** A listing read without error from `from` reads its line `from` without error and goes on from the state after it. */
  lemma RunNext(framework: string, filename: string, metabase: Env, st: State, lines: seq<string>, from: nat)
    requires from < |lines|
    requires Run(framework, filename, metabase, st, lines, from).Ok?
    ensures Step(framework, filename, metabase, st, lines, from).Ok?
    ensures Run(framework, filename, metabase, st, lines, from)
      == Run(framework, filename, metabase, Step(framework, filename, metabase, st, lines, from).value, lines, from + 1)
  {
  }

  /** A line that starts with a keyword followed by a space has at least two tokens. */
  lemma TwoTokens(line: string, keyword: string)
    requires StartsWith(line, keyword + " ") && ' ' !in keyword
    ensures |SplitChar(line, ' ')| >= 2
  {
    assert line == keyword + [' '] + line[|keyword| + 1..];
    SplitCharCons(keyword, ' ', line[|keyword| + 1..]);
  }

  /**
   * A `class_decl` line: a public or open class is collected, empty, and
   * becomes the current class; any other class only closes the current one.
   */
  lemma ClassDeclLine(framework: string, filename: string, metabase: Env, st: State, lines: seq<string>, index: nat)
    requires index < |lines| && StartsWith(Trim(lines[index]), "(class_decl ") && st.known.Some?
    ensures |SplitChar(Trim(lines[index]), ' ')| >= 2
    ensures Step(framework, filename, metabase, st, lines, index).Ok?
    ensures
      var tok := SplitChar(Trim(lines[index]), ' ');
      var name := Trim(RemoveChar(tok[1], '"'));
      var r := Step(framework, filename, metabase, st, lines, index).value;
      (HasPublic(Attrs(tok)) ==>
         name in r.classes && r.classes[name].methods == map[] && r.classes[name].properties == map[]
         && r.classdef == Some(name) && r.known.Some? && name in r.known.value)
      && (!HasPublic(Attrs(tok)) ==> r.classes == st.classes && r.classdef.None?)
  {
    TwoTokens(Trim(lines[index]), "(class_decl");
  }

  /** Two keywords that differ in their second character cannot both start a line. */
  lemma OtherKeyword(line: string, p: string, q: string)
    requires StartsWith(line, p) && |p| >= 2 && |q| >= 2 && p[1] != q[1]
    ensures !StartsWith(line, q)
  {
    assert line[..|p|][1] == line[1];
    if |q| <= |line| {
      assert line[..|q|][1] == line[1];
    }
  }

  lemma VarDeclKeyword(line: string)
    requires StartsWith(line, "(var_decl")
    ensures !StartsWith(line, "(class_decl ")
  {
    OtherKeyword(line, "(var_decl", "(class_decl ");
  }

  lemma FuncDeclKeyword(line: string)
    requires StartsWith(line, "(func_decl ")
    ensures !StartsWith(line, "(class_decl ") && !StartsWith(line, "(var_decl")
  {
    OtherKeyword(line, "(func_decl ", "(class_decl ");
    OtherKeyword(line, "(func_decl ", "(var_decl");
  }

  lemma ParameterKeyword(line: string)
    requires StartsWith(line, "(parameter ")
    ensures !StartsWith(line, "(class_decl ") && !StartsWith(line, "(var_decl") && !StartsWith(line, "(func_decl ")
  {
    OtherKeyword(line, "(parameter ", "(class_decl ");
    OtherKeyword(line, "(parameter ", "(var_decl");
    OtherKeyword(line, "(parameter ", "(func_decl ");
  }

  lemma ResultKeyword(line: string)
    requires StartsWith(line, "(result")
    ensures !StartsWith(line, "(class_decl ") && !StartsWith(line, "(var_decl") && !StartsWith(line, "(func_decl ")
    ensures !StartsWith(line, "(parameter ") && !StartsWith(line, "(pattern_named ")
  {
    OtherKeyword(line, "(result", "(class_decl ");
    OtherKeyword(line, "(result", "(var_decl");
    OtherKeyword(line, "(result", "(func_decl ");
    OtherKeyword(line, "(result", "(parameter ");
    OtherKeyword(line, "(result", "(pattern_named ");
  }

  /** A `var_decl` that is neither public nor open adds no property. */
  lemma NonPublicVarDecl(framework: string, filename: string, metabase: Env, st: State, lines: seq<string>, index: nat)
    requires index < |lines| && StartsWith(Trim(lines[index]), "(var_decl") && st.classdef.Some?
    requires !HasPublic(Attrs(SplitChar(Trim(lines[index]), ' ')))
    requires Step(framework, filename, metabase, st, lines, index).Ok?
    ensures Step(framework, filename, metabase, st, lines, index).value.classes == st.classes
  {
    var line := Trim(lines[index]);
    VarDeclKeyword(line);
  }

  /** A `func_decl` that is neither public nor open adds no method and closes the current one. */
  lemma NonPublicFuncDecl(framework: string, filename: string, metabase: Env, st: State, lines: seq<string>, index: nat)
    requires index < |lines| && StartsWith(Trim(lines[index]), "(func_decl ") && !Contains(Trim(lines[index]), "getter_for=")
    requires !HasPublic(Attrs(SplitChar(Trim(lines[index]), ' ')))
    requires Step(framework, filename, metabase, st, lines, index).Ok?
    ensures Step(framework, filename, metabase, st, lines, index).value.classes == st.classes
    ensures Step(framework, filename, metabase, st, lines, index).value.methodef.None?
  {
    var line := Trim(lines[index]);
    FuncDeclKeyword(line);
  }

  /**
   * A public `func_decl` inside a public class is stored in it under the
   * name before its '(' and becomes the current method; a last token
   * "type" makes it a class method.
   */
  lemma PublicFuncDecl(framework: string, filename: string, metabase: Env, st: State, lines: seq<string>, index: nat)
    requires index < |lines| && StartsWith(Trim(lines[index]), "(func_decl ") && !Contains(Trim(lines[index]), "getter_for=")
    requires Inv(framework, filename, st) && st.classdef.Some?
    requires HasPublic(Attrs(SplitChar(Trim(lines[index]), ' ')))
    requires Step(framework, filename, metabase, st, lines, index).Ok?
    ensures |SplitChar(Trim(lines[index]), ' ')| >= 2
    ensures
      var tok := SplitChar(Trim(lines[index]), ' ');
      var m := MethodNaming(Trim(RemoveChar(tok[1], '"'))).0;
      var r := Step(framework, filename, metabase, st, lines, index).value;
      var c := st.classdef.value;
      c in r.classes && m in r.classes[c].methods && r.methodef == Some(InClass(c, m))
      && r.classes[c].methods[m].arguments == MethodNaming(Trim(RemoveChar(tok[1], '"'))).2
      && (tok[|tok| - 1] == "type" ==> !r.classes[c].methods[m].instance)
  {
    var line := Trim(lines[index]);
    TwoTokens(line, "(func_decl");
    FuncDeclKeyword(line);
    assert Step(framework, filename, metabase, st, lines, index) == FuncDecl(st, line);
  }

  /** The `self` parameter of a method is skipped. */
  lemma SelfParameterSkipped(framework: string, filename: string, metabase: Env, st: State, lines: seq<string>, index: nat)
    requires index < |lines| && StartsWith(Trim(lines[index]), "(parameter ") && st.methodef.Some?
    requires FirstMatch(Trim(lines[index]), 0, ParameterAt).Some?
    requires FirstMatch(Trim(lines[index]), 0, ParameterAt).value.0 == "self"
    ensures Step(framework, filename, metabase, st, lines, index) == Ok(st)
  {
    var line := Trim(lines[index]);
    ParameterKeyword(line);
  }

  /** A `(result` line followed by its type closes the current method. */
  lemma ResultClosesMethod(framework: string, filename: string, metabase: Env, st: State, lines: seq<string>, index: nat)
    requires index + 2 < |lines| && StartsWith(Trim(lines[index]), "(result") && st.methodef.Some?
    requires StartsWith(Trim(lines[index + 1]), "(type_ident") && StartsWith(Trim(lines[index + 2]), "(component ")
    requires Step(framework, filename, metabase, st, lines, index).Ok?
    ensures Step(framework, filename, metabase, st, lines, index).value.methodef.None?
  {
    var line := Trim(lines[index]);
    ResultKeyword(line);
  }

  // ---------------------------------------------------------------- method names

  /** A name `m(labels)`: the method is called `m` and its selector adds every label after the first. */
  lemma MethodNamingOf(name: string, m: string, labels: string)
    requires name == m + "(" + labels + ")" && m != [] && '(' !in m
    ensures MethodNaming(name).0 == m
    ensures MethodNaming(name).1 == Some(m + SelectorSuffix(SplitChar(labels, ':')[1..]))
    ensures MethodNaming(name).2 == Some([])
  {
    assert name[|m|..|m| + 1] == "(";
    forall j | 0 <= j < |m|
      ensures !MatchAt(name, "(", j)
    {
      assert name[j..j + 1][0] == m[j];
    }
    FindIs(name, "(", |m|);
    assert name[..|m|] == m;
    assert name[|m| + 1..|name| - 1] == labels;
  }

  /** `foo(a:b:)` is method `foo` with selector `foo:b:`. */
  lemma MethodNamingExample(name: string)
    requires name == "foo(a:b:)"
    ensures MethodNaming(name).0 == "foo" && MethodNaming(name).1 == Some("foo:b:")
  {
    MethodNamingOf(name, "foo", "a:b:");
    SplitExample();
    assert SelectorSuffix(["b", ""]) == ":b:";
    assert "foo" + ":b:" == "foo:b:";
  }

  lemma SplitExample()
    ensures SplitChar("a:b:", ':')[1..] == ["b", ""]
  {
    assert "a:b:" == "a" + [':'] + "b:";
    SplitCharCons("a", ':', "b:");
    assert "b:" == "b" + [':'] + "";
    SplitCharCons("b", ':', "");
    assert SplitChar("", ':') == [""];
  }

  /** A name without '(' gives the empty method name: `if (i)` accepts the index -1. */
  lemma MethodNamingWithoutParen(name: string)
    requires '(' !in name
    ensures MethodNaming(name).0 == [] && MethodNaming(name).2 == Some([])
  {
    forall j | 0 <= j
      ensures !MatchAt(name, "(", j)
    {
      if j < |name| {
        assert name[j] != '(';
        assert name[j..j + 1][0] == name[j];
      }
    }
    assert ParenIndex(name) == -1;
  }
}
