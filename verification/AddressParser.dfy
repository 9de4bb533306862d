/** parseAddressingHeader of packages/crypto/src/jsmimeparser/headerParser.js: the address machine, token by
    token, and the loop that runs it. */
module AddressParser {
  import opened HeaderPhrases
  import opened HeaderText
  import opened HeaderTokens

  /** The variables of the loop. */
  datatype Parse = Parse(
    results: seq<Entry>, addrlist: seq<Mailbox>,
    name: string, groupName: string, localPart: string, address: string, comment: string, lastComment: string,
    inAngle: bool, inComment: bool, needsSpace: bool, afterAddress: bool, preserveSpace: bool, commentClosed: bool)

  const NEW_PARSE := Parse([], [], "", "", "", "", "", "", false, false, false, false, false, false)

  /** How a token is cleaned of characters that do not display. */
  type Cleaner = string -> string

  function Singles(mailboxes: seq<Mailbox>): (entries: seq<Entry>)
    ensures |entries| == |mailboxes|
    ensures forall i :: 0 <= i < |entries| ==> entries[i] == Single(mailboxes[i])
  {
    if mailboxes == [] then [] else [Single(mailboxes[0])] + Singles(mailboxes[1..])
  }

  /** The address with its local part quoted where it needs to be. */
  function Requoted(addrSpec: string): string {
    var at := LastAt(addrSpec);
    var lp := if at < 0 then "" else addrSpec[..at];
    if AnyIn(lp, LOCAL_SPECIALS) then "\"" + Escape(lp) + "\"" + addrSpec[|lp|..] else addrSpec
  }

  /** White space runs become single spaces. */
  function CollapseSpace(s: string): string {
    if s == "" then ""
    else if !IsSpace(s[0]) then [s[0]] + CollapseSpace(s[1..])
    else if |s| > 1 && IsSpace(s[1]) then CollapseSpace(s[1..])
    else " " + CollapseSpace(s[1..])
  }

  function Trim(s: string): string {
    TrimLeft(TrimRight(s))
  }

  /** The text of a comment without its parentheses and the space before it. */
  function CommentText(comment: string): string {
    var offset := if StartsWith(comment, ' ') then 2 else 1;
    if offset + 1 <= |comment| then comment[offset..|comment| - 1] else ""
  }

  function DisplayName(name: string, lastComment: string): string {
    var display := Trim(CollapseSpace(name));
    if display == "" && lastComment != "" then CommentText(lastComment) else display
  }

  /** The list with the mailbox that has been read, unless that is empty. */
  function Listed(p: Parse): seq<Mailbox> {
    var m := Mailbox(DisplayName(p.name, p.lastComment), Requoted(p.address));
    if m.name != "" || m.email != "" then p.addrlist + [m] else p.addrlist
  }

  /** Ends the mailbox being read: it is added and the scratch variables are cleared. */
  function AddToAddrList(p: Parse): Parse {
    p.(addrlist := Listed(p),
       name := "", localPart := "", address := "", lastComment := "",
       inAngle := false, inComment := false, needsSpace := false, afterAddress := false)
  }

  function StepColon(p: Parse): Parse {
    p.(groupName := p.name, name := "", localPart := "", results := p.results + Singles(p.addrlist), addrlist := [],
       needsSpace := false)
  }

  function StepLess(p: Parse): Parse {
    if p.inAngle then
      p.(name := if p.address != "" then p.address else p.name, localPart := "", address := "", needsSpace := false)
    else p.(inAngle := true, needsSpace := false)
  }

  function StepOpenComment(p: Parse): Parse {
    var spaced := p.needsSpace || (p.name != "" && !EndsInSpace(p.name));
    p.(inComment := true, preserveSpace := p.needsSpace, comment := if spaced then " (" else "(",
       commentClosed := false, needsSpace := false)
  }

  predicate EndsInSpace(s: string) {
    s != "" && s[|s| - 1] == ' '
  }

  function StepCloseComment(p: Parse): Parse {
    var comment := p.comment + ")";
    if p.inAngle then
      p.(inComment := false, comment := comment, lastComment := comment, needsSpace := p.preserveSpace,
         commentClosed := true)
    else
      p.(inComment := false, comment := comment, lastComment := comment, name := p.name + comment, needsSpace := true,
         commentClosed := true)
  }

  function StepAt(p: Parse): Parse {
    if p.afterAddress then p
    else if p.inAngle then p.(address := p.address + "@", needsSpace := false)
    else p.(address := p.localPart + "@", name := "", localPart := "", inAngle := true, needsSpace := false)
  }

  function StepSemicolon(p: Parse): Parse {
    var q := AddToAddrList(p);
    q.(results := q.results + if q.groupName == "" then Singles(q.addrlist) else [Group(q.groupName, q.addrlist)],
       addrlist := [], groupName := "")
  }

  function StepText(p: Parse, token: string): Parse {
    var spaced := if p.needsSpace && token != "" && token[0] != '.' then " " + token else token;
    var q := p.(needsSpace := token != "" && token[0] != '.');
    if p.inComment then q.(comment := p.comment + spaced)
    else if p.inAngle then q.(address := p.address + spaced)
    else
      q.(name := if p.afterAddress then p.name else p.name + spaced,
         localPart := p.localPart + (if p.commentClosed then token else spaced),
         commentClosed := false)
  }

  function StepToken(clean: Cleaner, p: Parse, token: Token): Parse {
    match token
    case Word(text) => StepText(p, clean(text))
    case Delimiter(c) =>
      if c == ':' then StepColon(p)
      else if c == '<' && !p.afterAddress then StepLess(p)
      else if c == '>' && !p.afterAddress
          then p.(inAngle := false, lastComment := "", afterAddress := true, needsSpace := false)
      else if c == '(' then StepOpenComment(p)
      else if c == ')' then StepCloseComment(p)
      else if c == '@' then StepAt(p)
      else if c == ',' then AddToAddrList(p)
      else if c == ';' then StepSemicolon(p)
      else StepText(p, clean([c]))
  }

  function StepTokens(clean: Cleaner, p: Parse, tokens: seq<Token>): Parse
    decreases |tokens|
  {
    if tokens == [] then p else StepTokens(clean, StepToken(clean, p, tokens[0]), tokens[1..])
  }

  /** The list: a group still open is taken to end here. */
  function EndParse(p: Parse): seq<Entry> {
    var q := AddToAddrList(p);
    q.results + if q.groupName != "" then [Group(q.groupName, q.addrlist)] else Singles(q.addrlist)
  }

  const ADDRESS_OPTIONS := Options(":,;<>@", true, true, true, true)

  function AddressOptions(doRFC2047: bool): Options {
    ADDRESS_OPTIONS.(rfc2047 := doRFC2047)
  }

  function AddressList(clean: Cleaner, d: Decoder, header: string, doRFC2047: bool): seq<Entry> {
    EndParse(StepTokens(clean, NEW_PARSE, Tokens(AddressOptions(doRFC2047), d, header)))
  }

  /** The variables of parseAddressingHeader, and its inner function. */
  class AddressReader {
    var results: seq<Entry>
    var addrlist: seq<Mailbox>
    var name: string
    var groupName: string
    var localPart: string
    var address: string
    var comment: string
    var lastComment: string
    var inAngle: bool
    var inComment: bool
    var needsSpace: bool
    var afterAddress: bool
    var preserveSpace: bool
    var commentClosed: bool

    function State(): Parse
      reads this
    {
      Parse(results, addrlist, name, groupName, localPart, address, comment, lastComment,
            inAngle, inComment, needsSpace, afterAddress, preserveSpace, commentClosed)
    }

    constructor ()
      ensures State() == NEW_PARSE
    {
      results, addrlist := [], [];
      name, groupName, localPart, address, comment, lastComment := "", "", "", "", "", "";
      inAngle, inComment, needsSpace, afterAddress := false, false, false, false;
      preserveSpace, commentClosed := false, false;
    }

    method AddMailbox(displayName: string, addrSpec: string)
      modifies this
      ensures State() == AddToAddrList(old(State()).(name := displayName, address := addrSpec))
    {
      hide Listed;
      var list := ListMailbox(displayName, addrSpec);
      addrlist := list;
      ClearPending();
    }

    /** Clears the pending flags and variables. */
    method ClearPending()
      modifies this
      ensures State() == old(State()).(name := "", localPart := "", address := "", lastComment := "",
                                       inAngle := false, inComment := false, needsSpace := false, afterAddress := false)
    {
      ClearTexts();
      inAngle, inComment, needsSpace, afterAddress := false, false, false, false;
    }

    method ClearTexts()
      modifies this
      ensures State() == old(State()).(name := "", localPart := "", address := "", lastComment := "")
    {
      name, localPart, address, lastComment := "", "", "", "";
    }

    method ListMailbox(displayName: string, addrSpec: string) returns (list: seq<Mailbox>)
      ensures list == Listed(State().(name := displayName, address := addrSpec))
    {
      hide Requoted, DisplayName;
      var email := Requoted(addrSpec);
      var display := CleanName(displayName);
      list := if display != "" || email != "" then addrlist + [Mailbox(display, email)] else addrlist;
    }

    /** The display name, or the comment of the legacy form. */
    method CleanName(displayName: string) returns (display: string)
      ensures display == DisplayName(displayName, lastComment)
    {
      display := Trim(CollapseSpace(displayName));
      if display == "" && lastComment != "" {
        display := CommentText(lastComment);
      }
    }

    method Take(clean: Cleaner, token: Token)
      modifies this
      ensures State() == StepToken(clean, old(State()), token)
    {
      hide AddressReader.State, AddToAddrList, StepColon, StepLess, StepOpenComment, StepCloseComment, StepAt,
           StepSemicolon, StepText;
      StateHas();
      match token
      case Word(text) => TakeText(clean(text));
      case Delimiter(c) =>
        if c == ':' {
          TakeColon();
        } else if c == '<' && !afterAddress {
          TakeLess();
        } else if c == '>' && !afterAddress {
          TakeGreater();
        } else if c == '(' {
          TakeOpenComment();
        } else if c == ')' {
          TakeCloseComment();
        } else if c == '@' {
          TakeAt();
        } else if c == ',' {
          AddMailbox(name, address);
        } else if c == ';' {
          TakeSemicolon();
        } else {
          TakeText(clean([c]));
        }
    }

    lemma StateHas()
      ensures State().afterAddress == afterAddress && State().(name := name, address := address) == State()
    {
    }

    method TakeColon()
      modifies this
      ensures State() == StepColon(old(State()))
    {
      groupName, name, localPart := name, "", "";
      if |addrlist| > 0 {
        results := results + Singles(addrlist);
      }
      addrlist := [];
      needsSpace := false;
    }

    method TakeLess()
      modifies this
      ensures State() == StepLess(old(State()))
    {
      if inAngle {
        if |address| > 0 {
          name := address;
        }
        localPart, address := "", "";
      } else {
        inAngle := true;
      }
      needsSpace := false;
    }

    method TakeGreater()
      modifies this
      ensures State() == old(State()).(inAngle := false, lastComment := "", afterAddress := true, needsSpace := false)
    {
      inAngle, lastComment, afterAddress := false, "", true;
      needsSpace := false;
    }

    method TakeOpenComment()
      modifies this
      ensures State() == StepOpenComment(old(State()))
    {
      inComment, preserveSpace := true, needsSpace;
      if !needsSpace {
        needsSpace := name != "" && !EndsInSpace(name);
      }
      comment := if needsSpace then " (" else "(";
      commentClosed := false;
      needsSpace := false;
    }

    method TakeCloseComment()
      modifies this
      ensures State() == StepCloseComment(old(State()))
    {
      inComment := false;
      comment := comment + ")";
      lastComment := comment;
      if inAngle {
        needsSpace := preserveSpace;
      } else {
        name := name + comment;
        needsSpace := true;
      }
      commentClosed := true;
    }

    method TakeAt()
      modifies this
      ensures State() == StepAt(old(State()))
    {
      if afterAddress {
        return;
      }
      if !inAngle {
        address, name, localPart, inAngle := localPart, "", "", true;
      }
      address := address + "@";
      needsSpace := false;
    }

    method TakeSemicolon()
      modifies this
      ensures State() == StepSemicolon(old(State()))
    {
      hide AddToAddrList, Singles;
      StateHas();
      AddMailbox(name, address);
      CommitList();
    }

    /** Moves the list read so far to the results, as a group if there is a group name. */
    method CommitList()
      modifies this
      ensures var q := old(State());
              var more := if q.groupName == "" then Singles(q.addrlist) else [Group(q.groupName, q.addrlist)];
              State() == q.(results := q.results + more, addrlist := [], groupName := "")
    {
      if groupName == "" {
        results := results + Singles(addrlist);
      } else {
        results := results + [Group(groupName, addrlist)];
      }
      addrlist, groupName := [], "";
    }

    method TakeText(token: string)
      modifies this
      ensures State() == StepText(old(State()), token)
    {
      var spacedToken := token;
      if needsSpace && token != "" && token[0] != '.' {
        spacedToken := " " + spacedToken;
      }
      if inComment {
        comment := comment + spacedToken;
      } else if inAngle {
        address := address + spacedToken;
      } else {
        if !afterAddress {
          name := name + spacedToken;
        }
        if commentClosed {
          localPart := localPart + token;
          commentClosed := false;
        } else {
          localPart := localPart + spacedToken;
        }
      }
      needsSpace := token != "" && token[0] != '.';
    }
  }

  method ParseAddressingHeader(clean: Cleaner, d: Decoder, header: string, doRFC2047: bool)
      returns (entries: seq<Entry>)
    ensures entries == AddressList(clean, d, header, doRFC2047)
  {
    hide Tokens, StepToken, AddToAddrList;
    var tokens := GetHeaderTokens(header, AddressOptions(doRFC2047), d);
    var reader := new AddressReader();
    for i := 0 to |tokens|
      invariant StepTokens(clean, reader.State(), tokens[i..]) == StepTokens(clean, NEW_PARSE, tokens)
    {
      assert tokens[i..][1..] == tokens[i + 1..];
      reader.Take(clean, tokens[i]);
    }
    reader.AddMailbox(reader.name, reader.address);
    entries := reader.results;
    if reader.groupName != "" {
      entries := entries + [Group(reader.groupName, reader.addrlist)];
    } else {
      entries := entries + Singles(reader.addrlist);
    }
  }
}
