// The keywords of the scripting language that declarations print and
// parse (the `Keywords` interface nested in C4ScriptParser.java).

module Keywords {
  const FUNC := "func"
  const PRIVATE := "private"
  const PROTECTED := "protected"
  const PUBLIC := "public"
  const GLOBAL := "global"
  const CONST := "const"
  const GLOBAL_NAMED := "static"
  const LOCAL_NAMED := "local"
  const VAR_NAMED := "var"
}
