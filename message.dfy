/**
 * The callout data model of `openhands/events/action/message.py`: the closed
 * `CalloutType` enumeration with its string values, the `CalloutMessage`
 * record with its dictionary form, and the two message actions with their
 * `__str__` renderings.
 */
module Message {
  import opened Wrappers
  import opened Text

  datatype CalloutType = Warning | Hack | Workaround | Compromise | Assumption | Incomplete

  /** `CalloutType.X.value` */
  function Value(t: CalloutType): (s: string)
    ensures s != [] && forall i :: 0 <= i < |s| ==> IsAsciiLower(s[i])
  {
    match t
    case Warning => "warning"
    case Hack => "hack"
    case Workaround => "workaround"
    case Compromise => "compromise"
    case Assumption => "assumption"
    case Incomplete => "incomplete"
  }

  /** `CalloutType(s)`: the member whose value is `s`; anything else raises ValueError. */
  function ParseCalloutType(s: string): (r: Option<CalloutType>)
    ensures r.Some? ==> Value(r.value) == s
    ensures r.None? ==> forall t :: Value(t) != s
  {
    if s == "warning" then Some(Warning)
    else if s == "hack" then Some(Hack)
    else if s == "workaround" then Some(Workaround)
    else if s == "compromise" then Some(Compromise)
    else if s == "assumption" then Some(Assumption)
    else if s == "incomplete" then Some(Incomplete)
    else None
  }

  /** Enum to value and back is the identity, and distinct members have distinct values. */
  lemma ValueRoundTrip(t: CalloutType, u: CalloutType)
    ensures ParseCalloutType(Value(t)) == Some(t)
    ensures Value(t) == Value(u) ==> t == u
  {
  }

  /** The values of a JSON-like Python object, for the dictionary form and for `metadata`. */
  datatype Json =
    | Null
    | Bool(b: bool)
    | Num(n: int)
    | Str(s: string)
    | Arr(items: seq<Json>)
    | Obj(fields: map<string, Json>)

  /** `metadata` is any value carried through unchanged; `Null` stands for None. */
  datatype CalloutMessage = CalloutMessage(calloutType: CalloutType, title: string, details: string, metadata: Json)
  {
    /** The `emoji` property: a fixed symbol per type. */
    function Emoji(): (e: string)
      ensures e != []
    {
      match calloutType
      case Warning => "\U{26A0}\U{FE0F}"
      case Hack => "\U{1F527}"
      case Workaround => "\U{1F504}"
      case Compromise => "\U{2696}\U{FE0F}"
      case Assumption => "\U{1F4AD}"
      case Incomplete => "\U{1F6A7}"
    }
  }

  /** Two callouts show the same emoji exactly when they have the same type. */
  lemma EmojiIdentifiesType(a: CalloutMessage, b: CalloutMessage)
    ensures a.Emoji() == b.Emoji() <==> a.calloutType == b.calloutType
  {
  }

  const DictKeys: set<string> := {"type", "title", "details", "metadata"}

  /** `CalloutMessage.to_dict()` */
  function ToDict(c: CalloutMessage): (d: map<string, Json>)
    ensures d.Keys == DictKeys
    ensures d["type"] == Str(Value(c.calloutType))
    ensures d["title"] == Str(c.title) && d["details"] == Str(c.details)
    ensures d["metadata"] == c.metadata
  {
    map["type" := Str(Value(c.calloutType)),
        "title" := Str(c.title),
        "details" := Str(c.details),
        "metadata" := c.metadata]
  }

  /** What `from_dict` raises: KeyError for a missing key, ValueError for an unknown type value. */
  datatype DictError = MissingKey(key: string) | UnknownType(value: Json) | NotText(key: string)

  function TextField(d: map<string, Json>, key: string): Result<string, DictError> {
    if key !in d then Failure(MissingKey(key))
    else if !d[key].Str? then Failure(NotText(key))
    else Success(d[key].s)
  }

  /** `CalloutMessage.from_dict(d)`, its keyword arguments evaluated in order. */
  function FromDict(d: map<string, Json>): (r: Result<CalloutMessage, DictError>)
    ensures r.Success? <==>
      && "type" in d && d["type"].Str? && ParseCalloutType(d["type"].s).Some?
      && "title" in d && d["title"].Str?
      && "details" in d && d["details"].Str?
    ensures "type" !in d ==> r == Failure(MissingKey("type"))
    ensures "type" in d && (!d["type"].Str? || ParseCalloutType(d["type"].s).None?) ==> r == Failure(UnknownType(d["type"]))
    ensures r.Success? ==> ToDict(r.value)["type"] == d["type"]
    ensures r.Success? ==> r.value.title == d["title"].s && r.value.details == d["details"].s
    ensures r.Success? ==> r.value.metadata == if "metadata" in d then d["metadata"] else Null
  {
    if "type" !in d then Failure(MissingKey("type"))
    else
      var parsed := if d["type"].Str? then ParseCalloutType(d["type"].s) else None;
      if parsed.None? then Failure(UnknownType(d["type"]))
      else
        match TextField(d, "title")
        case Failure(e) => Failure(e)
        case Success(title) =>
          match TextField(d, "details")
          case Failure(e) => Failure(e)
          case Success(details) =>
            Success(CalloutMessage(parsed.value, title, details, if "metadata" in d then d["metadata"] else Null))
  }

  /** `from_dict(c.to_dict()) == c` */
  lemma RoundTrip(c: CalloutMessage)
    ensures FromDict(ToDict(c)) == Success(c)
  {
    ValueRoundTrip(c.calloutType, c.calloutType);
  }

  /** A dictionary with exactly the four keys that `from_dict` accepts is what `to_dict` gives back. */
  lemma DictRoundTrip(d: map<string, Json>)
    requires d.Keys == DictKeys && FromDict(d).Success?
    ensures ToDict(FromDict(d).value) == d
  {
    var c := FromDict(d).value;
    assert ToDict(c).Keys == d.Keys;
    assert ToDict(c)["title"] == d["title"];
  }

  /** The first line of an action's `__str__`. */
  function Header(kind: string, source: string): string {
    "**" + kind + "** (source=" + source + ")"
  }

  function ImageLine(url: string): string {
    "IMAGE_URL: " + url
  }

  function FileLine(url: string): string {
    "FILE_URL: " + url
  }

  /** The line `__str__` shows for one callout. */
  function CalloutLine(c: CalloutMessage): string {
    "  " + c.Emoji() + " " + UpperString(Value(c.calloutType)) + ": " + c.title
  }

  function CountLine(n: nat): string {
    "CALLOUTS: " + Decimal(n) + " callout(s)"
  }

  /** The callout block of `MessageAction.__str__`: a count line and one line per callout, or nothing. */
  function CalloutBlock(cs: seq<CalloutMessage>): seq<string> {
    if cs == [] then [] else [CountLine(|cs|)] + MapLines(CalloutLine, cs)
  }

  /**
   * A chat message. The fields are updated in place: `images_urls` is a
   * settable alias and the callout detector appends to `callouts`.
   * `source` is the event source as `__str__` renders it; it belongs to the
   * event base class.
   */
  class MessageAction {
    var source: string
    var content: string
    var fileUrls: Option<seq<string>>
    var imageUrls: Option<seq<string>>
    var waitForResponse: bool
    var callouts: Option<seq<CalloutMessage>>

    constructor (source: string, content: string, fileUrls: Option<seq<string>>, imageUrls: Option<seq<string>>,
                 waitForResponse: bool, callouts: Option<seq<CalloutMessage>>)
      ensures this.source == source && this.content == content
      ensures this.fileUrls == fileUrls && this.imageUrls == imageUrls
      ensures this.waitForResponse == waitForResponse && this.callouts == callouts
    {
      this.source := source;
      this.content := content;
      this.fileUrls := fileUrls;
      this.imageUrls := imageUrls;
      this.waitForResponse := waitForResponse;
      this.callouts := callouts;
    }

    /** The `message` property is the content. */
    function Message(): (m: string)
      reads this
      ensures m == content
    {
      content
    }

    /** Getter of the deprecated `images_urls` alias. */
    function ImagesUrls(): (u: Option<seq<string>>)
      reads this
      ensures u == imageUrls
    {
      imageUrls
    }

    /** Setter of the deprecated `images_urls` alias: writes `image_urls`, nothing else. */
    method SetImagesUrls(v: Option<seq<string>>)
      modifies this
      ensures imageUrls == v && ImagesUrls() == v
      ensures source == old(source) && content == old(content) && fileUrls == old(fileUrls)
      ensures waitForResponse == old(waitForResponse) && callouts == old(callouts)
    {
      imageUrls := v;
    }

    /** The lines `__str__` produces, in order. */
    ghost function Lines(): seq<string>
      reads this
    {
      [Header("MessageAction", source), "CONTENT: " + content]
        + MapLines(ImageLine, imageUrls.GetOr([]))
        + MapLines(FileLine, fileUrls.GetOr([]))
        + CalloutBlock(callouts.GetOr([]))
    }

    /** `__str__`, built by appending one line at a time. */
    method ToString() returns (ret: string)
      ensures ret == JoinLines(Lines())
    {
      ghost var lines := [Header("MessageAction", source), "CONTENT: " + content];
      ret := Header("MessageAction", source) + "\n";
      ret := ret + "CONTENT: " + content;
      JoinTwoLines(lines[0], lines[1]);
      ghost var images := MapLines(ImageLine, imageUrls.GetOr([]));
      if imageUrls.Some? && |imageUrls.value| > 0 {
        ret := AppendEach(ret, lines, imageUrls.value, ImageLine);
      } else {
        assert lines + images == lines;
      }
      lines := lines + images;
      ghost var files := MapLines(FileLine, fileUrls.GetOr([]));
      if fileUrls.Some? && |fileUrls.value| > 0 {
        ret := AppendEach(ret, lines, fileUrls.value, FileLine);
      } else {
        assert lines + files == lines;
      }
      lines := lines + files;
      ghost var block := CalloutBlock(callouts.GetOr([]));
      if callouts.Some? && |callouts.value| > 0 {
        var cs := callouts.value;
        ret := AppendBlock(ret, lines, CountLine(|cs|), cs, CalloutLine);
      } else {
        assert lines + block == lines;
      }
      assert lines + block == Lines();
    }
  }

  /** The rendered action begins with the header line, then the CONTENT line. */
  lemma MessageRenderStart(a: MessageAction)
    ensures IsPrefixOf(Header("MessageAction", a.source) + "\n" + "CONTENT: " + a.content, JoinLines(a.Lines()))
  {
    JoinLinesStart(a.Lines());
  }

  /**
   * The structure of `MessageAction.__str__`: header, content, one line per
   * image URL, one per file URL, and the callout block only for a non-empty
   * callout list, with one line per callout in list order.
   */
  lemma MessageLinesLayout(a: MessageAction)
    ensures var ls := a.Lines();
      var imgs := a.imageUrls.GetOr([]);
      var files := a.fileUrls.GetOr([]);
      var cs := a.callouts.GetOr([]);
      var n := 2 + |imgs| + |files|;
      && |ls| == n + (if cs == [] then 0 else 1 + |cs|)
      && ls[0] == Header("MessageAction", a.source)
      && ls[1] == "CONTENT: " + a.content
      && (forall i :: 0 <= i < |imgs| ==> ls[2 + i] == ImageLine(imgs[i]))
      && (forall i :: 0 <= i < |files| ==> ls[2 + |imgs| + i] == FileLine(files[i]))
      && (cs != [] ==> ls[n] == CountLine(|cs|))
      && (forall i :: 0 <= i < |cs| ==> ls[n + 1 + i] == CalloutLine(cs[i]))
  {
  }

  /** A line whose first two characters differ from those of "CALLOUTS: " is not a count line. */
  lemma NotCountLine(l: string, c0: char, c1: char)
    requires |l| >= 2 && l[0] == c0 && l[1] == c1 && (c0 != 'C' || c1 != 'A')
    ensures !IsPrefixOf("CALLOUTS: ", l)
  {
    assert "CALLOUTS: "[1] == 'A';
  }

  /** No header, content, image or file line can be mistaken for the count line. */
  lemma OtherLinesAreNotCountLines(source: string, content: string, url: string)
    ensures !IsPrefixOf("CALLOUTS: ", Header("MessageAction", source))
    ensures !IsPrefixOf("CALLOUTS: ", "CONTENT: " + content)
    ensures !IsPrefixOf("CALLOUTS: ", ImageLine(url))
    ensures !IsPrefixOf("CALLOUTS: ", FileLine(url))
  {
    NotCountLine(Header("MessageAction", source), '*', '*');
    NotCountLine("CONTENT: " + content, 'C', 'O');
    NotCountLine(ImageLine(url), 'I', 'M');
    NotCountLine(FileLine(url), 'F', 'I');
  }

  lemma CountLineIsCountLine(n: nat)
    ensures IsPrefixOf("CALLOUTS: ", CountLine(n))
  {
  }

  /** A line starting with "CALLOUTS: " appears exactly when the callout list is non-empty. */
  lemma CountLineIffCallouts(a: MessageAction)
    ensures (exists i :: 0 <= i < |a.Lines()| && IsPrefixOf("CALLOUTS: ", a.Lines()[i])) <==> a.callouts.GetOr([]) != []
  {
    var ls := a.Lines();
    var imgs := a.imageUrls.GetOr([]);
    var files := a.fileUrls.GetOr([]);
    var cs := a.callouts.GetOr([]);
    var n := 2 + |imgs| + |files|;
    MessageLinesLayout(a);
    if cs != [] {
      CountLineIsCountLine(|cs|);
      assert IsPrefixOf("CALLOUTS: ", ls[n]);
    } else {
      forall i | 0 <= i < |ls| ensures !IsPrefixOf("CALLOUTS: ", ls[i]) {
        if i < 2 {
          OtherLinesAreNotCountLines(a.source, a.content, "");
        } else if i < 2 + |imgs| {
          assert ls[i] == ImageLine(imgs[i - 2]);
          OtherLinesAreNotCountLines(a.source, a.content, imgs[i - 2]);
        } else {
          assert ls[i] == FileLine(files[i - 2 - |imgs|]);
          OtherLinesAreNotCountLines(a.source, a.content, files[i - 2 - |imgs|]);
        }
      }
    }
  }

  function ToolsLine(n: nat): string {
    "TOOLS: " + Decimal(n) + " tools available"
  }

  function AgentLine(agentClass: string): string {
    "AGENT_CLASS: " + agentClass
  }

  /** A system message: the system prompt and the tools offered to the agent. */
  datatype SystemMessageAction = SystemMessageAction(
    source: string,
    content: string,
    tools: Option<seq<Json>>,
    openhandsVersion: Option<string>,
    agentClass: Option<string>)
  {
    /** The `message` property is the content. */
    function Message(): (m: string)
      ensures m == content
    {
      content
    }

    /** The lines `__str__` produces, in order. */
    function Lines(): seq<string> {
      var tls := tools.GetOr([]);
      var agent := agentClass.GetOr("");
      [Header("SystemMessageAction", source), "CONTENT: " + content]
        + (if tls != [] then [ToolsLine(|tls|)] else [])
        + (if agent != "" then [AgentLine(agent)] else [])
    }

    /** `__str__`: the TOOLS line only for a non-empty tool list, the AGENT_CLASS line only for a non-empty class name. */
    method ToString() returns (ret: string)
      ensures ret == JoinLines(Lines())
    {
      var h, c := Header("SystemMessageAction", source), "CONTENT: " + content;
      ghost var lines := [h, c];
      ret := h + "\n";
      ret := ret + "CONTENT: " + content;
      assert ret == h + "\n" + c;
      JoinTwoLines(h, c);
      if tools.Some? && |tools.value| > 0 {
        JoinLinesSnoc(lines, ToolsLine(|tools.value|));
        ret := ret + "\n" + ToolsLine(|tools.value|);
        lines := lines + [ToolsLine(|tools.value|)];
      }
      if agentClass.Some? && agentClass.value != "" {
        JoinLinesSnoc(lines, AgentLine(agentClass.value));
        ret := ret + "\n" + AgentLine(agentClass.value);
        lines := lines + [AgentLine(agentClass.value)];
      }
      assert lines == Lines();
    }
  }

  /** A line whose first character differs from that of `p` does not start with `p`. */
  lemma FirstCharRules(p: string, line: string)
    requires p != [] && line != [] && line[0] != p[0]
    ensures !IsPrefixOf(p, line)
  {
  }

  /** Line `i` of a system message is the TOOLS line only at index 2, and the AGENT_CLASS line only last. */
  lemma SystemLineKind(a: SystemMessageAction, i: nat)
    requires i < |a.Lines()|
    ensures var ls, hasTools, hasAgent := a.Lines(), a.tools.GetOr([]) != [], a.agentClass.GetOr("") != "";
      && (IsPrefixOf("TOOLS: ", ls[i]) <==> hasTools && i == 2)
      && (IsPrefixOf("AGENT_CLASS: ", ls[i]) <==> hasAgent && i == |ls| - 1)
  {
    var ls := a.Lines();
    var tls, agent := a.tools.GetOr([]), a.agentClass.GetOr("");
    var line := ls[i];
    if i == 0 {
      assert line == Header("SystemMessageAction", a.source);
      assert line[0] == '*';
      FirstCharRules("TOOLS: ", line);
      FirstCharRules("AGENT_CLASS: ", line);
    } else if i == 1 {
      assert line == "CONTENT: " + a.content;
      assert line[0] == 'C';
      FirstCharRules("TOOLS: ", line);
      FirstCharRules("AGENT_CLASS: ", line);
    } else if tls != [] && i == 2 {
      assert line == ToolsLine(|tls|);
      assert line[0] == 'T' && line[..7] == "TOOLS: ";
      FirstCharRules("AGENT_CLASS: ", line);
    } else {
      assert agent != "" && i == |ls| - 1 && line == AgentLine(agent);
      assert line[0] == 'A' && line[..13] == "AGENT_CLASS: ";
      FirstCharRules("TOOLS: ", line);
    }
  }

  /** TOOLS appears exactly when there are tools, AGENT_CLASS exactly when the class name is non-empty. */
  lemma SystemLinesOptional(a: SystemMessageAction)
    ensures (exists i :: 0 <= i < |a.Lines()| && IsPrefixOf("TOOLS: ", a.Lines()[i])) <==> a.tools.GetOr([]) != []
    ensures (exists i :: 0 <= i < |a.Lines()| && IsPrefixOf("AGENT_CLASS: ", a.Lines()[i])) <==> a.agentClass.GetOr("") != ""
  {
    var ls := a.Lines();
    forall i | 0 <= i < |ls|
      ensures IsPrefixOf("TOOLS: ", ls[i]) <==> a.tools.GetOr([]) != [] && i == 2
      ensures IsPrefixOf("AGENT_CLASS: ", ls[i]) <==> a.agentClass.GetOr("") != "" && i == |ls| - 1
    {
      SystemLineKind(a, i);
    }
    if a.tools.GetOr([]) != [] {
      SystemLineKind(a, 2);
    }
    if a.agentClass.GetOr("") != "" {
      SystemLineKind(a, |ls| - 1);
    }
  }
}
