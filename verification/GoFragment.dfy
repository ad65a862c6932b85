/** The Go statements CompileBody emits, one datatype value a line, and what running a list of them does. */
module GoFragment {
  import opened Wrappers
  import opened Strings

  datatype Line =
    | DeclareBuilder            // var _sb strings.Builder
    | DeclareArgs               // var _args []any
    | OpenIf(cond: string)      // if cond {
    | ElseIfClause(cond: string)// } else if cond {
    | ElseClause                // } else {
    | Close                     // }
    | WriteLit(lit: string)     // _sb.WriteString("lit")
    | WriteVar(name: string)    // _sb.WriteString(name)
    | WriteDeref(name: string)  // if name != nil { _sb.WriteString(*name) }
    | WriteNumber               // _sb.WriteString("$" + strconv.Itoa(len(_args)+1))
    | AppendArg(name: string)   // _args = append(_args, name)
    | BindQuery                 // _query := _sb.String()

  /** A driver argument: nothing is known of it but its identity. */
  datatype Value = Value(id: int)

  /** The method's parameters at run time: conditions over them, and what each name holds. */
  datatype Env = Env(
    cond: string -> bool,
    value: string -> Value,
    text: string -> string,
    pointee: string -> Option<string>)

  /** Where control stands in an if statement: in the branch taken, still looking for one, or past it. */
  datatype Mode = Taking | Seeking | Past

  datatype Frames = Bottom | Frame(mode: Mode, elseSeen: bool, below: Frames)

  predicate Active(f: Frames) {
    f.Bottom? || f.mode.Taking?
  }

  datatype Machine = Machine(sb: string, args: seq<Value>, query: Option<string>, frames: Frames)

  /** One line, by the Go specification's section "If statements"; None when the line is out of place. */
  function Step(line: Line, env: Env, m: Machine): Option<Machine> {
    match line
    case DeclareBuilder => if m.frames.Bottom? then Some(m.(sb := "")) else None
    case DeclareArgs => if m.frames.Bottom? then Some(m.(args := [])) else None
    case BindQuery => if m.frames.Bottom? then Some(m.(query := Some(m.sb))) else None
    case OpenIf(c) =>
      var mode := if !Active(m.frames) then Past else if env.cond(c) then Taking else Seeking;
      Some(m.(frames := Frame(mode, false, m.frames)))
    case ElseIfClause(c) =>
      if m.frames.Bottom? || m.frames.elseSeen then None
      else
        var mode := if !m.frames.mode.Seeking? then Past else if env.cond(c) then Taking else Seeking;
        Some(m.(frames := Frame(mode, false, m.frames.below)))
    case ElseClause =>
      if m.frames.Bottom? || m.frames.elseSeen then None
      else
        var mode := if m.frames.mode.Seeking? then Taking else Past;
        Some(m.(frames := Frame(mode, true, m.frames.below)))
    case Close => if m.frames.Bottom? then None else Some(m.(frames := m.frames.below))
    case WriteLit(s) => Some(if Active(m.frames) then m.(sb := m.sb + s) else m)
    case WriteVar(x) => Some(if Active(m.frames) then m.(sb := m.sb + env.text(x)) else m)
    case WriteDeref(x) =>
      Some(if Active(m.frames) && env.pointee(x).Some? then m.(sb := m.sb + env.pointee(x).value) else m)
    case WriteNumber => Some(if Active(m.frames) then m.(sb := m.sb + ("$" + Itoa(|m.args| + 1))) else m)
    case AppendArg(x) => Some(if Active(m.frames) then m.(args := m.args + [env.value(x)]) else m)
  }

  function Run(lines: seq<Line>, env: Env, m: Machine): Option<Machine> {
    if lines == [] then Some(m)
    else
      match Step(lines[0], env, m)
      case None => None
      case Some(m') => Run(lines[1..], env, m')
  }

  lemma RunFirst(line: Line, rest: seq<Line>, env: Env, m: Machine)
    ensures Run([line] + rest, env, m) ==
            match Step(line, env, m) { case None => None case Some(m') => Run(rest, env, m') }
  {
    assert ([line] + rest)[1..] == rest;
  }

  lemma RunOne(line: Line, env: Env, m: Machine)
    ensures Run([line], env, m) == Step(line, env, m)
  {
    assert [line][1..] == [];
  }

  /** Running two fragments one after the other. */
  lemma {:induction false} RunAppend(a: seq<Line>, b: seq<Line>, env: Env, m: Machine)
    ensures Run(a + b, env, m) == match Run(a, env, m) { case None => None case Some(m') => Run(b, env, m') }
  {
    if a == [] {
      assert a + b == b;
    } else {
      assert (a + b)[1..] == a[1..] + b;
      match Step(a[0], env, m)
      case None =>
      case Some(m') => RunAppend(a[1..], b, env, m');
    }
  }
}
