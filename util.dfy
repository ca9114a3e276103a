/** `Util` (src/utils/util.ts): the class test and the older module resolver. */
module Util {
  import opened Wrappers
  import opened JsStrings
  import opened JsValues

  /** `Util.isClass`: a function whose `prototype` is an object and whose source text begins `class`. */
  predicate IsClass(v: Value) {
    v.Fn? && v.hasObjectPrototype && Take(v.source, 5) == "class"
  }

  lemma IsClassMeansClassSource(v: Value)
    ensures IsClass(v) <==> v.Fn? && v.hasObjectPrototype && StartsWith(v.source, "class")
  {
  }

  /**
   * `Util.resolveFile`: `.ts` prefers a truthy `default` over the first export; `.js` keeps a
   * class and otherwise takes the first export, never looking at `default`; any other
   * extension leaves the module alone.
   */
  function ResolveFile(file: Value, fileType: string): (r: Result<Value, Thrown>)
    ensures fileType != ".ts" && fileType != ".js" ==> r == Ok(file)
    ensures (fileType == ".ts" || (fileType == ".js" && !IsClass(file))) ==> (r.Err? <==> Nullish(file))
    ensures r.Ok? ==>
      || r.value == file
      || r.value == Undefined
      || (Get(file, "default").Ok? && r.value == Get(file, "default").value)
      || (Values(file).Ok? && r.value in Values(file).value)
  {
    if fileType == ".ts" then
      match Get(file, "default")
      case Err(e) => Err(e)
      case Ok(d) =>
        if Truthy(d) then Ok(d)
        else match Values(file)
          case Err(e) => Err(e)
          case Ok(vs) => Ok(First(vs))
    else if fileType == ".js" then
      if IsClass(file) then Ok(file)
      else match Values(file)
        case Err(e) => Err(e)
        case Ok(vs) => Ok(First(vs))
    else Ok(file)
  }

  /** `.ts`: a truthy `default` export wins; otherwise the first export value, `undefined` when there is none. */
  lemma TsPrefersDefault(props: seq<(string, Value)>)
    ensures var r := ResolveFile(Obj(props), ".ts");
      && (Truthy(Lookup(props, "default")) ==> r == Ok(Lookup(props, "default")))
      && (!Truthy(Lookup(props, "default")) ==> r == Ok(if |props| == 0 then Undefined else props[0].1))
  {
    var vs := Values(Obj(props)).value;
    assert Get(Obj(props), "default") == Ok(Lookup(props, "default"));
    assert |props| > 0 ==> vs[0] == props[0].1;
  }

  /** `.js`: a module object yields its first export value, whatever its `default` export holds. */
  lemma JsTakesFirstExport(props: seq<(string, Value)>)
    ensures ResolveFile(Obj(props), ".js") == Ok(if |props| == 0 then Undefined else props[0].1)
  {
  }

  /** `.js`: a class is returned as it is. */
  lemma JsKeepsClass(file: Value)
    requires IsClass(file)
    ensures ResolveFile(file, ".js") == Ok(file)
  {
  }
}
