/** JSON values as Jackson's untyped deserialiser hands them to Java code
    (null, Boolean, a Number, String, List, LinkedHashMap), and the text
    Java's `toString` / `String.valueOf` gives them. */
module Json {
  import opened Outcomes
  import JavaText

  /** A JSON value. Objects keep their members in document order, as a
      LinkedHashMap does; a number keeps its literal text. */
  datatype Json =
    | JNull
    | JBool(b: bool)
    | JNumber(literal: string)
    | JString(s: string)
    | JArray(items: seq<Json>)
    | JObject(members: seq<(string, Json)>)

  /** Some member of the object carries this name. */
  predicate HasMember(members: seq<(string, Json)>, name: string) {
    exists i :: 0 <= i < |members| && members[i].0 == name
  }

  /** Map.get on a parsed object: the value of the LAST member with that
      name (Jackson's map overwrites earlier duplicates), or None when no
      member has it. */
  function Get(members: seq<(string, Json)>, name: string): (r: Option<Json>)
    ensures r.Some? <==> HasMember(members, name)
  {
    if members == [] then None
    else if members[|members| - 1].0 == name then Some(members[|members| - 1].1)
    else
      assert forall i :: 0 <= i < |members| - 1 ==> members[..|members| - 1][i] == members[i];
      Get(members[..|members| - 1], name)
  }

  /** A member whose name differs from the one looked up does not change
      what Map.get returns, wherever it is placed. */
  lemma {:induction false} GetIgnoresOtherMember(members: seq<(string, Json)>, k: nat, other: (string, Json), name: string)
    requires k <= |members| && other.0 != name
    ensures Get(members[..k] + [other] + members[k..], name) == Get(members, name)
  {
    var ext := members[..k] + [other] + members[k..];
    if k == |members| {
      assert ext[..|ext| - 1] == members;
    } else {
      var n := |members|;
      assert ext[|ext| - 1] == members[n - 1];
      if members[n - 1].0 != name {
        var shorter := members[..n - 1];
        assert ext[..|ext| - 1] == shorter[..k] + [other] + shorter[k..];
        GetIgnoresOtherMember(shorter, k, other, name);
      }
    }
  }

  /** String.valueOf on the Java object Jackson builds for a value:
      "null", "true"/"false", the number's text, the string itself,
      AbstractCollection.toString for a list and AbstractMap.toString for
      an object. */
  function JavaString(j: Json): string
    decreases j, 1, 0
  {
    match j
    case JNull => "null"
    case JBool(b) => if b then "true" else "false"
    case JNumber(literal) => literal
    case JString(s) => s
    case JArray(items) => "[" + ItemsText(items, j) + "]"
    case JObject(members) => "{" + MembersText(members, j) + "}"
  }

  /** The elements of a list, each as String.valueOf gives it, joined by
      ", ". `parent` is the value the list belongs to. */
  function ItemsText(items: seq<Json>, ghost parent: Json): string
    requires forall i :: 0 <= i < |items| ==> items[i] < parent
    decreases parent, 0, |items|
  {
    if |items| == 0 then ""
    else if |items| == 1 then JavaString(items[0])
    else ItemsText(items[..|items| - 1], parent) + ", " + JavaString(items[|items| - 1])
  }

  /** The members of an object as "name=value", joined by ", ". */
  function MembersText(members: seq<(string, Json)>, ghost parent: Json): string
    requires forall i :: 0 <= i < |members| ==> members[i].1 < parent
    decreases parent, 0, |members|
  {
    if |members| == 0 then ""
    else if |members| == 1 then members[0].0 + "=" + JavaString(members[0].1)
    else MembersText(members[..|members| - 1], parent) + ", "
         + members[|members| - 1].0 + "=" + JavaString(members[|members| - 1].1)
  }
}
