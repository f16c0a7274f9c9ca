/** The dictionary helpers of the discussion client (`extract`, `strip_none`,
    `strip_blank`, `merge_dict`, `safe_content`), the ability flags of a post and the
    annotation of every post of a thread with the viewer's votes, subscription and
    abilities. Python values are modelled by `Value`; a post is a string-keyed dictionary. */
module DiscussionContent {
  import opened Wrappers
  import PyStr

  /** The Python values a post carries: `None`, booleans, integers, strings, lists and
      string-keyed dictionaries. */
  datatype Value =
    | Null
    | Bool(b: bool)
    | Int(i: int)
    | Str(s: string)
    | List(items: seq<Value>)
    | Dict(fields: map<string, Value>)

  type Content = map<string, Value>

  /** The exceptions the annotation can raise. */
  datatype ContentError = TypeError | KeyError(key: string)

  /** The dictionary's value for a key, `None` when the key is absent. */
  function Get(dic: Content, k: string): Value {
    if k in dic then dic[k] else Null
  }

  /** `extract`: one entry per requested key, `None` for keys the dictionary lacks. */
  function Extract(dic: Content, keys: seq<string>): (r: Content)
    ensures forall k :: k in r <==> k in keys
    ensures forall k :: k in keys && k in dic ==> r[k] == dic[k]
    ensures forall k :: k in keys && k !in dic ==> r[k] == Null
  {
    map k | k in keys :: Get(dic, k)
  }

  /** `strip_none`: drops exactly the entries whose value is `None`. */
  function StripNone(dic: Content): (r: Content)
    ensures forall k :: k in r <==> k in dic && dic[k] != Null
    ensures forall k :: k in r ==> r[k] == dic[k]
  {
    map k | k in dic && dic[k] != Null :: dic[k]
  }

  lemma StripNoneIdempotent(dic: Content)
    ensures StripNone(StripNone(dic)) == StripNone(dic)
  {
  }

  /** `_is_blank`: a string that is empty once stripped. */
  predicate IsBlank(v: Value) {
    v.Str? && |PyStr.Strip(v.s)| == 0
  }

  /** A value is blank exactly when it is a string made only of white space. */
  lemma BlankIffWhiteSpace(v: Value)
    ensures IsBlank(v) <==> v.Str? && PyStr.AllSpace(v.s)
  {
    if v.Str? {
      PyStr.StripEmptyIffAllSpace(v.s);
    }
  }

  /** `strip_blank`: drops exactly the entries whose value is a blank string. */
  function StripBlank(dic: Content): (r: Content)
    ensures forall k :: k in r <==> k in dic && !IsBlank(dic[k])
    ensures forall k :: k in r ==> r[k] == dic[k]
  {
    map k | k in dic && !IsBlank(dic[k]) :: dic[k]
  }

  lemma StripBlankIdempotent(dic: Content)
    ensures StripBlank(StripBlank(dic)) == StripBlank(dic)
  {
  }

  /** `merge_dict`: every key of either dictionary, the second one's value winning. */
  function MergeDict(d1: Content, d2: Content): (r: Content)
    ensures r.Keys == d1.Keys + d2.Keys
    ensures forall k :: k in d2 ==> r[k] == d2[k]
    ensures forall k :: k in d1 && k !in d2 ==> r[k] == d1[k]
  {
    d1 + d2
  }

  /** The fields of a post that may always be shown. */
  const SafeFields: seq<string> := [
    "id", "title", "body", "course_id", "anonymous", "endorsed",
    "parent_id", "thread_id", "votes", "closed",
    "created_at", "updated_at", "depth", "type",
    "commentable_id", "comments_count", "at_position_list",
    "children", "highlighted_title", "highlighted_body",
    "marked_title", "marked_body"]

  /** The fields naming the author, shown only for posts that are not anonymous. */
  const AuthorFields: seq<string> := ["username", "user_id"]

  /** The post's `anonymous` flag is the boolean `False` itself: no other false value qualifies. */
  predicate ShowsAuthor(content: Content) {
    Get(content, "anonymous") == Bool(false)
  }

  /** `safe_content`: the whitelisted fields (plus the author fields when the post is
      explicitly not anonymous) that are present and not `None`, unchanged. */
  function SafeContent(content: Content): (r: Content)
    ensures forall k :: k in r ==> k in SafeFields || k in AuthorFields
    ensures forall k :: k in SafeFields ==> (k in r <==> k in content && content[k] != Null)
    ensures forall k :: k in AuthorFields ==>
              (k in r <==> ShowsAuthor(content) && k in content && content[k] != Null)
    ensures forall k :: k in r ==> r[k] == content[k] && r[k] != Null
  {
    AuthorFieldsNotSafe();
    ShownFieldsMembership(content);
    StripNone(Extract(content, ShownFields(content)))
  }

  lemma ShownFieldsMembership(content: Content)
    ensures forall k :: k in ShownFields(content) <==> k in SafeFields || (ShowsAuthor(content) && k in AuthorFields)
  {
  }

  /** The fields `safe_content` keeps for a post. */
  function ShownFields(content: Content): seq<string> {
    if ShowsAuthor(content) then SafeFields + AuthorFields else SafeFields
  }

  /** Keeping the non-`None` values of a fixed set of fields is idempotent. */
  lemma KeepFieldsIdempotent(content: Content, fields: seq<string>)
    ensures StripNone(Extract(StripNone(Extract(content, fields)), fields)) == StripNone(Extract(content, fields))
  {
  }

  lemma AnonymousIsSafe()
    ensures "anonymous" in SafeFields
  {
    assert SafeFields[4] == "anonymous";
  }

  lemma AuthorFieldsNotSafe()
    ensures forall k :: k in AuthorFields ==> k !in SafeFields
  {
    assert "username" !in SafeFields;
    assert "user_id" !in SafeFields;
  }

  /** An anonymous post, or one whose `anonymous` flag is anything but `False`, never
      reveals its author. */
  lemma SafeContentHidesAuthor(content: Content)
    requires !ShowsAuthor(content)
    ensures "username" !in SafeContent(content) && "user_id" !in SafeContent(content)
  {
    assert "username" in AuthorFields && "user_id" in AuthorFields;
  }

  /** Filtering a filtered post changes nothing: the `anonymous` flag that decided the
      author fields survives the filter whenever it was `False`. */
  lemma SafeContentIdempotent(content: Content)
    ensures SafeContent(SafeContent(content)) == SafeContent(content)
  {
    var r := SafeContent(content);
    AnonymousIsSafe();
    assert ShowsAuthor(r) == ShowsAuthor(content);
    KeepFieldsIdempotent(content, ShownFields(content));
  }

  /** The ability flags `get_ability` reports for a post. */
  datatype Ability = Ability(
    editable: bool, canReply: bool, canEndorse: bool,
    canDelete: bool, canOpenclose: bool, canVote: bool)

  /** `get_ability`. `permitted(content, view)` stands for
      `check_permissions_by_view(user, course_id, content, view)` for the requesting
      user and course. */
  function GetAbility(content: Content, permitted: (Content, string) -> bool): (r: Result<Ability, ContentError>)
    ensures r.Failure? <==> "type" !in content
    ensures r.Failure? ==> r.error == KeyError("type")
    ensures r.Success? && content["type"] == Str("thread") ==>
              r.value == Ability(
                permitted(content, "update_thread"), permitted(content, "create_comment"), false,
                permitted(content, "delete_thread"), permitted(content, "openclose_thread"),
                permitted(content, "vote_for_thread"))
    ensures r.Success? && content["type"] == Str("comment") ==>
              r.value == Ability(
                permitted(content, "update_comment"), permitted(content, "create_sub_comment"),
                permitted(content, "endorse_comment"), permitted(content, "delete_comment"), false,
                permitted(content, "vote_for_comment"))
    ensures r.Success? && content["type"] != Str("thread") && content["type"] != Str("comment") ==>
              r.value == Ability(
                permitted(content, "update_comment"), permitted(content, "create_sub_comment"), false,
                permitted(content, "delete_comment"), false, permitted(content, "vote_for_comment"))
  {
    if "type" !in content then Failure(KeyError("type"))
    else
      var isThread := content["type"] == Str("thread");
      Success(Ability(
        permitted(content, if isThread then "update_thread" else "update_comment"),
        permitted(content, if isThread then "create_comment" else "create_sub_comment"),
        if content["type"] == Str("comment") then permitted(content, "endorse_comment") else false,
        permitted(content, if isThread then "delete_thread" else "delete_comment"),
        if isThread then permitted(content, "openclose_thread") else false,
        permitted(content, if isThread then "vote_for_thread" else "vote_for_comment")))
  }

  /** Granting a user more views never takes an ability away. */
  lemma AbilityMonotone(content: Content, p1: (Content, string) -> bool, p2: (Content, string) -> bool)
    requires "type" in content
    requires forall view :: p1(content, view) ==> p2(content, view)
    ensures var a1, a2 := GetAbility(content, p1).value, GetAbility(content, p2).value;
            (a1.editable ==> a2.editable) && (a1.canReply ==> a2.canReply) &&
            (a1.canEndorse ==> a2.canEndorse) && (a1.canDelete ==> a2.canDelete) &&
            (a1.canOpenclose ==> a2.canOpenclose) && (a1.canVote ==> a2.canVote)
  {
  }

  /** Python 2 equality identifies `True` with `1` and `False` with `0`, also inside lists
      and dictionaries; `Canon` makes that identification explicit. */
  function Canon(v: Value): Value {
    match v
    case Bool(b) => Int(if b then 1 else 0)
    case List(items) => List(seq(|items|, i requires 0 <= i < |items| => Canon(items[i])))
    case Dict(fields) => Dict(map k | k in fields :: Canon(fields[k]))
    case _ => v
  }

  /** Python's `a == b` on values. */
  predicate PyEq(a: Value, b: Value) {
    Canon(a) == Canon(b)
  }

  /** Python's `x in xs` for a list. */
  predicate PyIn(x: Value, xs: seq<Value>) {
    exists j :: 0 <= j < |xs| && PyEq(xs[j], x)
  }

  /** The parts of `user_info` the annotation reads. */
  datatype UserInfo = UserInfo(upvotedIds: seq<Value>, downvotedIds: seq<Value>, subscribedThreadIds: seq<Value>)

  /** What `get_annotated_content_info` returns for one post. */
  datatype ContentInfo = ContentInfo(voted: string, subscribed: bool, ability: Ability)

  /** `get_annotated_content_info`: `voted` is `up` for an upvoted post, else `down` for a
      downvoted one, else empty; `subscribed` tells whether the viewer follows the post.
      A post without `id`, or (next) without `type`, raises `KeyError`. */
  function AnnotatedContentInfo(content: Content, userInfo: UserInfo, permitted: (Content, string) -> bool)
    : (r: Result<ContentInfo, ContentError>)
    ensures r.Failure? <==> "id" !in content || "type" !in content
    ensures "id" !in content ==> r == Failure(KeyError("id"))
    ensures "id" in content && "type" !in content ==> r == Failure(KeyError("type"))
    ensures r.Success? ==>
              (r.value.voted == "up" <==> PyIn(content["id"], userInfo.upvotedIds)) &&
              (r.value.voted == "down" <==>
                 !PyIn(content["id"], userInfo.upvotedIds) && PyIn(content["id"], userInfo.downvotedIds)) &&
              (r.value.voted == "" <==>
                 !PyIn(content["id"], userInfo.upvotedIds) && !PyIn(content["id"], userInfo.downvotedIds))
    ensures r.Success? ==>
              (r.value.subscribed <==> PyIn(content["id"], userInfo.subscribedThreadIds)) &&
              GetAbility(content, permitted) == Success(r.value.ability)
  {
    if "id" !in content then Failure(KeyError("id"))
    else
      var id := content["id"];
      var voted :=
        if PyIn(id, userInfo.upvotedIds) then "up"
        else if PyIn(id, userInfo.downvotedIds) then "down"
        else "";
      var ability :- GetAbility(content, permitted);
      Success(ContentInfo(voted, PyIn(id, userInfo.subscribedThreadIds), ability))
  }

  /** The viewer and the course a thread is annotated for. `containerStr` stands for
      Python's `str()` of a list or dictionary, whose text is not modelled. */
  datatype Viewer = Viewer(
    userInfo: UserInfo,
    permitted: (Content, string) -> bool,
    containerStr: Value -> string)

  /** The string form of an id, as used for the keys of the annotated infos: a string id
      is its own key, and an integer id its decimal numeral. */
  function StrOf(v: Value, containerStr: Value -> string): (r: string)
    ensures v.Null? ==> r == "None"
    ensures v.Bool? ==> r == if v.b then "True" else "False"
    ensures v.Str? ==> r == v.s
    ensures v.Int? && v.i >= 0 ==> PyStr.IsNumeral(r) && PyStr.NumeralValue(r) == v.i
    ensures v.Int? && v.i < 0 ==> |r| >= 2 && r[0] == '-' && PyStr.IsNumeral(r[1..])
    ensures v.Int? && v.i < 0 ==> PyStr.NumeralValue(r[1..]) == -v.i
  {
    match v
    case Null => "None"
    case Bool(b) => if b then "True" else "False"
    case Int(i) => PyStr.IntToString(i)
    case Str(s) => s
    case _ => containerStr(v)
  }

  /** Posts with distinct integer ids get distinct keys. */
  lemma StrOfIntInjective(a: int, b: int, containerStr: Value -> string)
    requires StrOf(Int(a), containerStr) == StrOf(Int(b), containerStr)
    ensures a == b
  {
  }

  /** The posts annotated below a post: the items of its `children` list, or none when
      it has no `children`. Annotating the children succeeds only for a list, an empty
      string or an empty dictionary: a non-empty string or dictionary yields strings, and
      annotating a string raises `TypeError`, as does iterating over `None`, a boolean or
      an integer. */
  function Children(content: Content): (r: Result<seq<Value>, ContentError>)
    ensures r.Success? <==>
              "children" !in content || content["children"].List? ||
              content["children"] == Str("") || content["children"] == Dict(map[])
    ensures r.Failure? ==> r.error == TypeError
    ensures r.Success? ==> forall kid :: kid in r.value ==> kid < Dict(content)
  {
    if "children" !in content then Success([])
    else match content["children"]
      case List(items) => Success(items)
      case Str(s) => if s == "" then Success([]) else Failure(TypeError)
      case Dict(fields) => if fields == map[] then Success([]) else Failure(TypeError)
      case _ => Failure(TypeError)
  }

  /** The posts of a thread in the order `annotate` visits them: each post, then the
      posts below each of its children in turn. A post whose children cannot be iterated
      ends the walk there. */
  function Subtree(node: Value): (r: seq<Value>)
    ensures |r| >= 1 && r[0] == node
    decreases node, 1
  {
    [node] + (if node.Dict? && Children(node.fields).Success? then SubtreeAll(node, Children(node.fields).value) else [])
  }

  function SubtreeAll(parent: Value, kids: seq<Value>): seq<Value>
    requires forall kid :: kid in kids ==> kid < parent
    decreases parent, 0, |kids|
  {
    if kids == [] then []
    else
      assert kids[0] in kids;
      assert forall kid :: kid in kids[1..] ==> kid in kids;
      Subtree(kids[0]) + SubtreeAll(parent, kids[1..])
  }

  /** What annotating a single post contributes: the string form of its id as the key
      and the post's info, or the exception annotating it raises. */
  function NodeStep(node: Value, viewer: Viewer): (r: Result<(string, ContentInfo), ContentError>)
    ensures r.Success? <==>
              node.Dict? && AnnotatedContentInfo(node.fields, viewer.userInfo, viewer.permitted).Success? &&
              Children(node.fields).Success?
    ensures r.Failure? ==>
              r.error == if node.Dict? && AnnotatedContentInfo(node.fields, viewer.userInfo, viewer.permitted).Failure?
                         then AnnotatedContentInfo(node.fields, viewer.userInfo, viewer.permitted).error
                         else TypeError
    ensures r.Success? ==>
              "id" in node.fields &&
              r.value == (StrOf(node.fields["id"], viewer.containerStr),
                          AnnotatedContentInfo(node.fields, viewer.userInfo, viewer.permitted).value)
  {
    if !node.Dict? then Failure(TypeError)
    else
      var info :- AnnotatedContentInfo(node.fields, viewer.userInfo, viewer.permitted);
      var kids :- Children(node.fields);
      Success((StrOf(node.fields["id"], viewer.containerStr), info))
  }

  /** The posts' contributions written into `infos` one after another. */
  function FoldNodes(infos: map<string, ContentInfo>, nodes: seq<Value>, viewer: Viewer)
    : Result<map<string, ContentInfo>, ContentError>
    decreases |nodes|
  {
    if nodes == [] then Success(infos)
    else
      var step :- NodeStep(nodes[0], viewer);
      FoldNodes(infos[step.0 := step.1], nodes[1..], viewer)
  }

  lemma {:induction false} FoldNodesAppend(infos: map<string, ContentInfo>, a: seq<Value>, b: seq<Value>, viewer: Viewer)
    ensures FoldNodes(infos, a, viewer).Failure? ==> FoldNodes(infos, a + b, viewer) == FoldNodes(infos, a, viewer)
    decreases |a|
    ensures FoldNodes(infos, a, viewer).Success? ==>
              FoldNodes(infos, a + b, viewer) == FoldNodes(FoldNodes(infos, a, viewer).value, b, viewer)
  {
    if a == [] {
      assert a + b == b;
    } else {
      assert (a + b)[0] == a[0] && (a + b)[1..] == a[1..] + b;
      var step := NodeStep(a[0], viewer);
      if step.Success? {
        FoldNodesAppend(infos[step.value.0 := step.value.1], a[1..], b, viewer);
      }
    }
  }

  /** Annotation succeeds exactly when every visited post can be annotated. */
  lemma {:induction false} FoldNodesSucceeds(infos: map<string, ContentInfo>, nodes: seq<Value>, viewer: Viewer)
    ensures FoldNodes(infos, nodes, viewer).Success? <==> forall n :: n in nodes ==> NodeStep(n, viewer).Success?
    decreases |nodes|
  {
    if nodes != [] {
      var step := NodeStep(nodes[0], viewer);
      assert forall n :: n in nodes <==> n == nodes[0] || n in nodes[1..];
      if step.Success? {
        FoldNodesSucceeds(infos[step.value.0 := step.value.1], nodes[1..], viewer);
      }
    }
  }

  /** A failed annotation reports the exception of the first post that could not be
      annotated. */
  lemma {:induction false} FoldNodesFirstError(infos: map<string, ContentInfo>, nodes: seq<Value>, viewer: Viewer)
    requires FoldNodes(infos, nodes, viewer).Failure?
    ensures exists i :: 0 <= i < |nodes| && NodeStep(nodes[i], viewer).Failure? &&
              (forall j :: 0 <= j < i ==> NodeStep(nodes[j], viewer).Success?) &&
              FoldNodes(infos, nodes, viewer).error == NodeStep(nodes[i], viewer).error
    decreases |nodes|
  {
    var step := NodeStep(nodes[0], viewer);
    if step.Success? {
      var rest := nodes[1..];
      FoldNodesFirstError(infos[step.value.0 := step.value.1], rest, viewer);
      var i :| 0 <= i < |rest| && NodeStep(rest[i], viewer).Failure? &&
               (forall j :: 0 <= j < i ==> NodeStep(rest[j], viewer).Success?) &&
               FoldNodes(infos[step.value.0 := step.value.1], rest, viewer).error == NodeStep(rest[i], viewer).error;
      assert forall j :: 0 < j <= i ==> nodes[j] == rest[j - 1];
      assert NodeStep(nodes[i + 1], viewer).Failure?;
    } else {
      assert NodeStep(nodes[0], viewer).Failure?;
    }
  }

  /** The key a successfully annotated post is stored under. */
  function KeyOf(node: Value, viewer: Viewer): string
    requires NodeStep(node, viewer).Success?
  {
    NodeStep(node, viewer).value.0
  }

  /** A successful annotation has one key per visited post and keeps the keys it
      started with. */
  lemma {:induction false} FoldNodesKeys(infos: map<string, ContentInfo>, nodes: seq<Value>, viewer: Viewer)
    requires FoldNodes(infos, nodes, viewer).Success?
    ensures forall n :: n in nodes ==> NodeStep(n, viewer).Success?
    ensures FoldNodes(infos, nodes, viewer).value.Keys ==
              infos.Keys + set n | n in nodes && NodeStep(n, viewer).Success? :: KeyOf(n, viewer)
    decreases |nodes|
  {
    FoldNodesSucceeds(infos, nodes, viewer);
    if nodes != [] {
      var step := NodeStep(nodes[0], viewer);
      var rest := nodes[1..];
      FoldNodesKeys(infos[step.value.0 := step.value.1], rest, viewer);
      assert forall n :: n in nodes <==> n == nodes[0] || n in rest;
    }
  }

  /** A key that no visited post produces keeps its earlier info. */
  lemma {:induction false} FoldNodesUntouched(infos: map<string, ContentInfo>, nodes: seq<Value>, viewer: Viewer, k: string)
    requires FoldNodes(infos, nodes, viewer).Success?
    requires k in infos
    requires forall j :: 0 <= j < |nodes| ==> NodeStep(nodes[j], viewer).Success? ==> KeyOf(nodes[j], viewer) != k
    ensures k in FoldNodes(infos, nodes, viewer).value
    ensures FoldNodes(infos, nodes, viewer).value[k] == infos[k]
    decreases |nodes|
  {
    if nodes != [] {
      var step := NodeStep(nodes[0], viewer);
      var rest := nodes[1..];
      assert forall j :: 0 <= j < |rest| ==> rest[j] == nodes[j + 1];
      FoldNodesUntouched(infos[step.value.0 := step.value.1], rest, viewer, k);
    }
  }

  /** Each visited post's info is stored under its key unless a later post has the
      same key. */
  lemma {:induction false} FoldNodesLastWins(infos: map<string, ContentInfo>, nodes: seq<Value>, viewer: Viewer, i: int)
    requires FoldNodes(infos, nodes, viewer).Success?
    requires 0 <= i < |nodes|
    requires forall n :: n in nodes ==> NodeStep(n, viewer).Success?
    requires forall j :: i < j < |nodes| ==> KeyOf(nodes[j], viewer) != KeyOf(nodes[i], viewer)
    ensures KeyOf(nodes[i], viewer) in FoldNodes(infos, nodes, viewer).value
    ensures FoldNodes(infos, nodes, viewer).value[KeyOf(nodes[i], viewer)] == NodeStep(nodes[i], viewer).value.1
    decreases |nodes|
  {
    var step := NodeStep(nodes[0], viewer);
    var rest := nodes[1..];
    assert forall j :: 0 <= j < |rest| ==> rest[j] == nodes[j + 1];
    if i == 0 {
      FoldNodesUntouched(infos[step.value.0 := step.value.1], rest, viewer, step.value.0);
    } else {
      assert forall n :: n in rest ==> n in nodes;
      FoldNodesLastWins(infos[step.value.0 := step.value.1], rest, viewer, i - 1);
    }
  }

  /** `annotate`: stores the info of `node` and then, recursively, of every post below
      it into `infos`. */
  method Annotate(node: Value, viewer: Viewer, infos: map<string, ContentInfo>)
    returns (r: Result<map<string, ContentInfo>, ContentError>)
    ensures r == FoldNodes(infos, Subtree(node), viewer)
    decreases node
  {
    if !node.Dict? {
      return Failure(TypeError);
    }
    var content := node.fields;
    var info := AnnotatedContentInfo(content, viewer.userInfo, viewer.permitted);
    if info.Failure? {
      return Failure(info.error);
    }
    var current := infos[StrOf(content["id"], viewer.containerStr) := info.value];
    var children := Children(content);
    if children.Failure? {
      return Failure(children.error);
    }
    var kids := children.value;
    assert Subtree(node) == [node] + SubtreeAll(node, kids);
    for i := 0 to |kids|
      invariant FoldNodes(infos, Subtree(node), viewer) == FoldNodes(current, SubtreeAll(node, kids[i..]), viewer)
    {
      var child := kids[i];
      assert child in kids;
      assert forall kid :: kid in kids[i + 1..] ==> kid in kids;
      assert kids[i..][1..] == kids[i + 1..];
      FoldNodesAppend(current, Subtree(child), SubtreeAll(node, kids[i + 1..]), viewer);
      var sub := Annotate(child, viewer, current);
      if sub.Failure? {
        return sub;
      }
      current := sub.value;
    }
    r := Success(current);
  }

  /** `get_annotated_content_infos`: one entry per post of the thread, keyed by
      `str(id)`, or the exception of the first post that cannot be annotated. */
  method GetAnnotatedContentInfos(thread: Value, viewer: Viewer)
    returns (r: Result<map<string, ContentInfo>, ContentError>)
    ensures r == FoldNodes(map[], Subtree(thread), viewer)
    ensures r.Success? <==> forall n :: n in Subtree(thread) ==> NodeStep(n, viewer).Success?
    ensures r.Success? ==>
              r.value.Keys == set n | n in Subtree(thread) && NodeStep(n, viewer).Success? :: KeyOf(n, viewer)
  {
    r := Annotate(thread, viewer, map[]);
    FoldNodesSucceeds(map[], Subtree(thread), viewer);
    if r.Success? {
      FoldNodesKeys(map[], Subtree(thread), viewer);
    }
  }
}
