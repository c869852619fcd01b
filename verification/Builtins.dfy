/** The built-in functions output inference knows, and the rule each one follows. */
module Builtins {
  import opened CtyTypes

  datatype Rule =
    | Fixed(t: Type)
    | UnifyArgs
    | ElementOf
    | LookupOf
    | ToList
    | ToSet
    | ToMap
    | Concat
    | Flatten
    | Passthrough
    | Merge
    | Zipmap
    | NotModelled

  const STRING_FUNCTIONS: set<string> := {
    "base64encode", "base64gzip", "base64sha256", "base64sha512", "basename", "bcrypt", "chomp",
    "cidrhost", "cidrnetmask", "cidrsubnet", "dirname", "file", "filebase64", "filebase64sha256",
    "filemd5", "filesha1", "filesha256", "filesha512", "format", "indent", "join", "jsonencode",
    "lower", "md5", "pathexpand", "plantimestamp", "replace", "sha1", "sha256", "sha512", "strrev",
    "substr", "templatefile", "textdecodebase64", "textencodebase64", "timeadd", "timestamp",
    "title", "tostring", "trim", "trimprefix", "trimspace", "trimsuffix", "upper", "urlencode",
    "uuid", "uuidv5", "yamlencode"
  }

  const NUMBER_FUNCTIONS: set<string> := {
    "abs", "ceil", "floor", "index", "length", "log", "parseint", "pow", "signum", "timecmp",
    "tonumber"
  }

  const BOOL_FUNCTIONS: set<string> := {
    "can", "contains", "endswith", "fileexists", "startswith", "strcontains", "tobool"
  }

  const STRING_LIST_FUNCTIONS: set<string> := {"cidrsubnets", "formatlist", "regexall", "split", "keys"}

  const UNIFYING_FUNCTIONS: set<string> := {"try", "coalesce", "coalescelist"}

  const CONCATENATING_FUNCTIONS: set<string> := {"concat", "setunion", "setintersection", "setsubtract"}

  const LIST_FUNCTIONS: set<string> := {
    "compact", "distinct", "reverse", "slice", "sort", "chunklist", "values"
  }

  function RuleFor(name: string): Rule {
    if name in STRING_FUNCTIONS then Fixed(String)
    else if name in NUMBER_FUNCTIONS then Fixed(Number)
    else if name in BOOL_FUNCTIONS then Fixed(Bool)
    else if name in STRING_LIST_FUNCTIONS then Fixed(List(String))
    else if name in UNIFYING_FUNCTIONS then UnifyArgs
    else if name == "one" || name == "element" then ElementOf
    else if name == "lookup" then LookupOf
    else if name == "tolist" then ToList
    else if name == "toset" then ToSet
    else if name == "tomap" then ToMap
    else if name in CONCATENATING_FUNCTIONS then Concat
    else if name == "flatten" then Flatten
    else if name in LIST_FUNCTIONS then Passthrough
    else if name == "merge" then Merge
    else if name == "zipmap" then Zipmap
    else NotModelled
  }
}
