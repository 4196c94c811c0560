/** The pattern parser of PatternLogLayout (libsimubase/PatternLogLayout.cpp,
    _updatePattern): a log pattern such as "%d{%H:%M} [%p] %m%n" becomes the
    chain of components that later formats each log event. */
module PatternLayouts {
  import opened Wrappers
  import opened Exceptions

  const Two32: nat := 0x1_0000_0000

  /** The components of a layout. A message shares the newline space
      component created last before it (named here by its index in the
      chain), or none; a newline component is only created while there is
      no newline space component, so it never holds one. */
  datatype Component =
    | Literal(text: string)
    | CategoryName
    | Timestamp(format: string)
    | Message(space: Option<nat>)
    | Priority
    | NewLineSpace
    | NewLine

  /** One element of a pattern: a plain character, or '%' with its code
      character and the postfix in braces after it (empty without one). */
  datatype Element = Char(c: char) | Code(code: char, postfix: string)

  /** The parser's state between elements: the chain so far, the pending
      literal, and the newline space component created last. */
  datatype Builder = Builder(components: seq<Component>, literal: string, space: Option<nat>)

  const Start: Builder := Builder([], "", None)

  const InvalidEnding: Exception := Failure("Invalid pattern ending.")
  const MissingPostfixEnd: Exception := Failure("Missing end of postfix.")

  function InvalidCode(c: char): Exception
  {
    Failure("Invalid pattern component '" + [c] + "'.")
  }

  /** The codes the switch of _updatePattern knows. */
  predicate IsCode(c: char)
  {
    c == '%' || c == 'c' || c == 'd' || c == 'm' || c == 'n' || c == 'p' || c == 's'
  }

  /** The first '}' at or after k. */
  function CloseAt(p: string, k: nat): (r: Option<nat>)
    ensures r.Some? ==> k <= r.value < |p| && p[r.value] == '}' && forall m :: k <= m < r.value ==> p[m] != '}'
    ensures r.None? ==> forall m :: k <= m < |p| ==> p[m] != '}'
    decreases |p| - k
  {
    if k >= |p| then None else if p[k] == '}' then Some(k) else CloseAt(p, k + 1)
  }

  /** The element starting at i and the index after it. A '%' as last
      character throws, and so does a '{' after a code without a closing
      '}'; the postfix is read for every code, before the code is looked
      at. */
  function ElementAt(p: string, i: nat): (r: Result<(Element, nat), Exception>)
    requires i < |p|
    ensures r.Ok? ==> i < r.value.1 <= |p|
  {
    if p[i] != '%' then Ok((Char(p[i]), i + 1))
    else if i + 1 >= |p| then Err(InvalidEnding)
    else if i + 2 < |p| && p[i + 2] == '{' then
      match CloseAt(p, i + 3)
      case None => Err(MissingPostfixEnd)
      case Some(k) => Ok((Code(p[i + 1], p[i + 3..k]), k + 1))
    else Ok((Code(p[i + 1], ""), i + 2))
  }

  /** The chain with the pending literal added, if there is one. */
  function Flushed(b: Builder): seq<Component>
  {
    if b.literal == "" then b.components else b.components + [Literal(b.literal)]
  }

  /** A new component goes after the pending literal. */
  function Push(b: Builder, c: Component): Builder
  {
    Builder(Flushed(b) + [c], "", b.space)
  }

  /** What one element does to the parser's state: '%%' and '%n' and plain
      characters extend the literal, except that a newline character makes
      a newline component while there is no newline space component; the
      codes c, d, m, p and s make components, and every other code throws. */
  function Apply(b: Builder, e: Element): Result<Builder, Exception>
  {
    match e
    case Char(c) =>
      if c == '\n' && b.space.None? then Ok(Push(b, NewLine)) else Ok(b.(literal := b.literal + [c]))
    case Code(code, postfix) =>
      if code == '%' then Ok(b.(literal := b.literal + "%"))
      else if code == 'c' then Ok(Push(b, CategoryName))
      else if code == 'd' then Ok(Push(b, Timestamp(postfix)))
      else if code == 'm' then Ok(Push(b, Message(b.space)))
      else if code == 'n' then Ok(b.(literal := b.literal + "\n"))
      else if code == 'p' then Ok(Push(b, Priority))
      else if code == 's' then Ok(Push(b, NewLineSpace).(space := Some(|Flushed(b)|)))
      else Err(InvalidCode(code))
  }

  /** The parse loop from index i on: the first exception ends it;
      otherwise the pending literal is added at the end. */
  function ParseFrom(p: string, i: nat, b: Builder): Result<seq<Component>, Exception>
    decreases |p| - i
  {
    if i >= |p| then Ok(Flushed(b))
    else
      match ElementAt(p, i)
      case Err(x) => Err(x)
      case Ok((e, j)) =>
        match Apply(b, e)
        case Err(x) => Err(x)
        case Ok(b1) => ParseFrom(p, j, b1)
  }

  /** The components _updatePattern builds for a pattern. Its size is taken
      as a uint32_t, so only the first |pattern| mod 2^32 characters are
      read. */
  function Parse(pattern: string): Result<seq<Component>, Exception>
  {
    ParseFrom(pattern[..|pattern| % Two32], 0, Start)
  }

  /** The index of the last newline space component in cs. */
  function LastSpace(cs: seq<Component>): (r: Option<nat>)
    ensures r.Some? ==> r.value < |cs| && cs[r.value] == NewLineSpace &&
                        forall k :: r.value < k < |cs| ==> cs[k] != NewLineSpace
    ensures r.None? ==> forall k :: 0 <= k < |cs| ==> cs[k] != NewLineSpace
  {
    if |cs| == 0 then None
    else if cs[|cs| - 1] == NewLineSpace then Some(|cs| - 1)
    else LastSpace(cs[..|cs| - 1])
  }

  /** The shape of every chain the parser builds: literals are never empty
      and never adjacent (the pending literal is added whole before the
      next component and at the end), each message shares the newline
      space component created last before it, and newline components only
      occur before the first newline space component. */
  predicate Normal(cs: seq<Component>)
  {
    (forall k :: 0 <= k < |cs| && cs[k].Literal? ==> cs[k].text != "") &&
    (forall k :: 0 <= k < |cs| - 1 ==> !(cs[k].Literal? && cs[k + 1].Literal?)) &&
    (forall k {:trigger LastSpace(cs[..k])} :: 0 <= k < |cs| && cs[k].Message? ==> cs[k].space == LastSpace(cs[..k])) &&
    (forall k {:trigger LastSpace(cs[..k])} :: 0 <= k < |cs| && cs[k].NewLine? ==> LastSpace(cs[..k]).None?)
  }

  /** A parser state from which a normal chain results: a normal chain that
      does not end in a literal, and the newline space component created
      last. */
  predicate BuilderOk(b: Builder)
  {
    Normal(b.components) && b.space == LastSpace(b.components) &&
    (|b.components| > 0 ==> !b.components[|b.components| - 1].Literal?)
  }

  /** Adding a component that fits keeps a chain normal. */
  lemma NormalAppend(cs: seq<Component>, c: Component)
    requires Normal(cs)
    requires c.Literal? ==> c.text != "" && (|cs| > 0 ==> !cs[|cs| - 1].Literal?)
    requires c.Message? ==> c.space == LastSpace(cs)
    requires c.NewLine? ==> LastSpace(cs).None?
    ensures Normal(cs + [c])
    ensures LastSpace(cs + [c]) == if c.NewLineSpace? then Some(|cs|) else LastSpace(cs)
  {
    NormalAppendLiterals(cs, c);
    NormalAppendShared(cs, c);
    LastSpaceAppend(cs, c);
  }

  /** The literal clauses of Normal after adding c. */
  lemma NormalAppendLiterals(cs: seq<Component>, c: Component)
    requires Normal(cs)
    requires c.Literal? ==> c.text != "" && (|cs| > 0 ==> !cs[|cs| - 1].Literal?)
    ensures var d := cs + [c];
            (forall k :: 0 <= k < |d| && d[k].Literal? ==> d[k].text != "") &&
            (forall k :: 0 <= k < |d| - 1 ==> !(d[k].Literal? && d[k + 1].Literal?))
  {
    var d := cs + [c];
    forall k | 0 <= k < |d|
      ensures d[k] == if k < |cs| then cs[k] else c
    {
    }
  }

  /** The message and newline clauses of Normal after adding c. */
  lemma NormalAppendShared(cs: seq<Component>, c: Component)
    requires Normal(cs)
    requires c.Message? ==> c.space == LastSpace(cs)
    requires c.NewLine? ==> LastSpace(cs).None?
    ensures var d := cs + [c];
            (forall k {:trigger LastSpace(d[..k])} :: 0 <= k < |d| && d[k].Message? ==> d[k].space == LastSpace(d[..k])) &&
            (forall k {:trigger LastSpace(d[..k])} :: 0 <= k < |d| && d[k].NewLine? ==> LastSpace(d[..k]).None?)
  {
    var d := cs + [c];
    assert d[..|cs|] == cs;
    forall k | 0 <= k < |d|
      ensures d[..k] == if k < |cs| then cs[..k] else cs
      ensures d[k] == if k < |cs| then cs[k] else c
    {
    }
  }

  /** The newline space component created last, after adding c. */
  lemma LastSpaceAppend(cs: seq<Component>, c: Component)
    ensures LastSpace(cs + [c]) == if c.NewLineSpace? then Some(|cs|) else LastSpace(cs)
  {
    assert (cs + [c])[..|cs|] == cs;
  }

  /** Pushing a component that fits keeps the parser state well formed. */
  lemma PushOk(b: Builder, c: Component)
    requires BuilderOk(b) && !c.Literal?
    requires c.Message? ==> c.space == b.space
    requires c.NewLine? ==> b.space.None?
    ensures Normal(Flushed(b)) && LastSpace(Flushed(b)) == b.space
    ensures Normal(Push(b, c).components)
    ensures LastSpace(Push(b, c).components) == if c.NewLineSpace? then Some(|Flushed(b)|) else b.space
  {
    if b.literal != "" {
      NormalAppend(b.components, Literal(b.literal));
    }
    NormalAppend(Flushed(b), c);
  }

  /** Every element the parser accepts keeps its state well formed. */
  lemma ApplyOk(b: Builder, e: Element)
    requires BuilderOk(b) && Apply(b, e).Ok?
    ensures BuilderOk(Apply(b, e).value)
    ensures b.components <= Apply(b, e).value.components
  {
    match e
    case Char(c) =>
      if c == '\n' && b.space.None? {
        PushBuilderOk(b, NewLine);
      }
    case Code(code, postfix) =>
      var c := CodeComponent(b, code, postfix);
      if c.Some? {
        PushBuilderOk(b, c.value);
      }
  }

  /** Pushing a component that fits, and recording it as the newline space
      component when it is one, keeps the state well formed and extends the
      chain. */
  lemma PushBuilderOk(b: Builder, c: Component)
    requires BuilderOk(b) && !c.Literal?
    requires c.Message? ==> c.space == b.space
    requires c.NewLine? ==> b.space.None?
    ensures var r := Push(b, c);
            BuilderOk(if c.NewLineSpace? then r.(space := Some(|Flushed(b)|)) else r) &&
            b.components <= r.components
  {
    PushOk(b, c);
    assert b.components <= Flushed(b);
  }

  /** The component a code makes, if any. */
  function CodeComponent(b: Builder, code: char, postfix: string): (c: Option<Component>)
    ensures c.Some? ==> !c.value.Literal? && !c.value.NewLine? && (c.value.Message? ==> c.value.space == b.space)
    ensures c.Some? && c.value != NewLineSpace ==> Apply(b, Code(code, postfix)) == Ok(Push(b, c.value))
    ensures c.Some? && c.value == NewLineSpace ==>
              Apply(b, Code(code, postfix)) == Ok(Push(b, NewLineSpace).(space := Some(|Flushed(b)|)))
    ensures c.None? && Apply(b, Code(code, postfix)).Ok? ==> Apply(b, Code(code, postfix)).value.components == b.components
  {
    if code == 'c' then Some(CategoryName)
    else if code == 'd' then Some(Timestamp(postfix))
    else if code == 'm' then Some(Message(b.space))
    else if code == 'p' then Some(Priority)
    else if code == 's' then Some(NewLineSpace)
    else None
  }

  /** One turn of the parse loop that does not throw. */
  lemma ParseStep(p: string, i: nat, b: Builder)
    requires i < |p| && ParseFrom(p, i, b).Ok?
    ensures ElementAt(p, i).Ok? && Apply(b, ElementAt(p, i).value.0).Ok?
    ensures ParseFrom(p, i, b) == ParseFrom(p, ElementAt(p, i).value.1, Apply(b, ElementAt(p, i).value.0).value)
  {
  }

  /** From a well formed state the parse loop builds a normal chain, which
      keeps the components built so far as its prefix. */
  lemma {:induction false} ParseFromNormal(p: string, i: nat, b: Builder)
    requires BuilderOk(b) && ParseFrom(p, i, b).Ok?
    ensures Normal(ParseFrom(p, i, b).value)
    ensures b.components <= ParseFrom(p, i, b).value
    decreases |p| - i
  {
    if i >= |p| {
      if b.literal != "" {
        NormalAppend(b.components, Literal(b.literal));
      }
    } else {
      ParseStep(p, i, b);
      var (e, j) := ElementAt(p, i).value;
      var b1 := Apply(b, e).value;
      ApplyOk(b, e);
      ParseFromNormal(p, j, b1);
    }
  }

  /** Every chain _updatePattern builds is normal. */
  lemma ParsedNormal(pattern: string)
    requires Parse(pattern).Ok?
    ensures Normal(Parse(pattern).value)
  {
    ParseFromNormal(pattern[..|pattern| % Two32], 0, Start);
  }

  /** A pattern whose last character is a '%' that starts an element is
      refused with "Invalid pattern ending.", whatever plain characters come
      before it. */
  lemma {:induction false} TrailingPercent(p: string, i: nat, b: Builder)
    requires i < |p| && p[|p| - 1] == '%'
    requires forall k :: i <= k < |p| - 1 ==> p[k] != '%'
    ensures ParseFrom(p, i, b) == Err(InvalidEnding)
    decreases |p| - i
  {
    if i < |p| - 1 {
      TrailingPercent(p, i + 1, Apply(b, Char(p[i])).value);
    }
  }

  /** In particular, a pattern without '%' followed by a single '%'. */
  lemma TrailingPercentPattern(s: string)
    requires |s| + 1 < Two32 && forall k :: 0 <= k < |s| ==> s[k] != '%'
    ensures Parse(s + "%") == Err(InvalidEnding)
  {
    var p := s + "%";
    assert p[..|p| % Two32] == p;
    TrailingPercent(p, 0, Start);
  }

  /** A '{' right after a code starts a postfix that runs to the next '}'
      and is handed to the code: a timestamp component takes it as its
      format. Without a closing '}' the pattern is refused with "Missing
      end of postfix.", whatever the code. */
  lemma {:induction false} PostfixRead(p: string, i: nat, b: Builder)
    requires i + 2 < |p| && p[i] == '%' && p[i + 2] == '{'
    ensures (forall m :: i + 3 <= m < |p| ==> p[m] != '}') ==> ParseFrom(p, i, b) == Err(MissingPostfixEnd)
    ensures forall k :: i + 3 <= k < |p| && p[k] == '}' && (forall m :: i + 3 <= m < k ==> p[m] != '}') ==>
              ElementAt(p, i) == Ok((Code(p[i + 1], p[i + 3..k]), k + 1)) &&
              (p[i + 1] == 'd' ==> ParseFrom(p, i, b) == ParseFrom(p, k + 1, Push(b, Timestamp(p[i + 3..k]))))
  {
    forall k | i + 3 <= k < |p| && p[k] == '}' && (forall m :: i + 3 <= m < k ==> p[m] != '}')
      ensures CloseAt(p, i + 3) == Some(k)
    {
      var c := CloseAt(p, i + 3);
      assert c.Some? && !(c.value < k) && !(k < c.value);
    }
  }

  /** '%%' adds a '%' and '%n' a newline character to the pending literal,
      without making a component. */
  lemma Escapes(p: string, i: nat, b: Builder)
    requires i + 1 < |p| && p[i] == '%' && (p[i + 1] == '%' || p[i + 1] == 'n')
    requires i + 2 >= |p| || p[i + 2] != '{'
    ensures ParseFrom(p, i, b) ==
            ParseFrom(p, i + 2, b.(literal := b.literal + (if p[i + 1] == '%' then "%" else "\n")))
  {
  }

  /** Only the codes %, c, d, m, n, p and s are accepted; any other is
      refused with "Invalid pattern component '<code>'.". */
  lemma CodesAccepted(p: string, i: nat, b: Builder)
    requires i + 1 < |p| && p[i] == '%' && ElementAt(p, i).Ok?
    ensures ParseFrom(p, i, b).Ok? ==> IsCode(p[i + 1])
    ensures !IsCode(p[i + 1]) ==> ParseFrom(p, i, b) == Err(InvalidCode(p[i + 1]))
  {
  }

  /** A newline character makes a newline component only before the first
      %s; after it, it goes into the literal. */
  lemma NewLineCharacter(p: string, i: nat, b: Builder)
    requires i < |p| && p[i] == '\n'
    ensures b.space.None? ==> ParseFrom(p, i, b) == ParseFrom(p, i + 1, Push(b, NewLine))
    ensures b.space.Some? ==> ParseFrom(p, i, b) == ParseFrom(p, i + 1, b.(literal := b.literal + "\n"))
  {
  }

  /** A pattern of plain characters without newline becomes one literal
      component holding it (none for the empty pattern). */
  lemma {:induction false} PlainText(p: string, i: nat, b: Builder)
    requires i <= |p| && forall k :: i <= k < |p| ==> p[k] != '%' && p[k] != '\n'
    ensures ParseFrom(p, i, b) == Ok(Flushed(b.(literal := b.literal + p[i..])))
    decreases |p| - i
  {
    if i < |p| {
      PlainText(p, i + 1, b.(literal := b.literal + [p[i]]));
      assert b.literal + [p[i]] + p[i + 1..] == b.literal + p[i..];
    } else {
      assert b.literal + p[i..] == b.literal;
    }
  }

  /** A PatternLogLayout: its pattern and the component chain built from
      it. */
  class PatternLogLayout {
    const pattern: string
    var components: seq<Component>

    /** The layout before _updatePattern has run. */
    constructor Init(pattern: string)
      ensures this.pattern == pattern && components == []
    {
      this.pattern := pattern;
      components := [];
    }

    /** PatternLogLayout(pattern): the constructor runs _updatePattern and
        passes its exception on, so a layout exists only for a pattern that
        parses. */
    static method New(pattern: string) returns (r: Result<PatternLogLayout, Exception>)
      ensures Parse(pattern).Ok? ==> r.Ok? && fresh(r.value) && r.value.pattern == pattern &&
                                     r.value.components == Parse(pattern).value
      ensures Parse(pattern).Err? ==> r == Err(Parse(pattern).error)
    {
      var l := new PatternLogLayout.Init(pattern);
      var u := l.UpdatePattern();
      if u.Err? {
        return Err(u.error);
      }
      r := Ok(l);
    }

    /** _updatePattern: the chain is cleared and rebuilt element by
        element; on an exception it is cleared again and the exception
        passed on. */
    method UpdatePattern() returns (r: Result<(), Exception>)
      modifies this
      ensures Parse(pattern).Ok? ==> r == Ok(()) && components == Parse(pattern).value
      ensures Parse(pattern).Err? ==> r == Err(Parse(pattern).error) && components == []
    {
      components := [];
      var text := pattern[..|pattern| % Two32];
      var i := 0;
      var literal := "";
      var space: Option<nat> := None;
      while i < |text|
        invariant i <= |text|
        invariant ParseFrom(text, i, Builder(components, literal, space)) == Parse(pattern)
        decreases |text| - i
      {
        ghost var b := Builder(components, literal, space);
        var element := ReadElement(text, i);
        if element.Err? {
          components := [];
          return Err(element.error);
        }
        var (e, j) := element.value;
        var cmp: Option<Component> := None;
        match e {
          case Char(c) =>
            if c == '\n' && space.None? {
              cmp := Some(NewLine);
            } else {
              literal := literal + [c];
            }
          case Code(code, postfix) =>
            if code == '%' {
              literal := literal + "%";
            } else if code == 'c' {
              cmp := Some(CategoryName);
            } else if code == 'd' {
              cmp := Some(Timestamp(postfix));
            } else if code == 'm' {
              cmp := Some(Message(space));
            } else if code == 'n' {
              literal := literal + "\n";
            } else if code == 'p' {
              cmp := Some(Priority);
            } else if code == 's' {
              space := Some(|components| + if literal == "" then 0 else 1);
              cmp := Some(NewLineSpace);
            } else {
              components := [];
              return Err(InvalidCode(code));
            }
        }
        if cmp.Some? {
          if literal != "" {
            components := components + [Literal(literal)];
            literal := "";
          }
          components := components + [cmp.value];
        }
        assert Apply(b, e) == Ok(Builder(components, literal, space));
        i := j;
      }
      if literal != "" {
        components := components + [Literal(literal)];
      }
      r := Ok(());
    }
  }

  /** Reading one element of the pattern at i, with the postfix loop. */
  method ReadElement(p: string, i: nat) returns (r: Result<(Element, nat), Exception>)
    requires i < |p|
    ensures r == ElementAt(p, i)
  {
    if p[i] != '%' {
      return Ok((Char(p[i]), i + 1));
    }
    if i + 1 >= |p| {
      return Err(InvalidEnding);
    }
    var code := p[i + 1];
    var k := i + 2;
    var postfix := "";
    if k < |p| && p[k] == '{' {
      var foundEnd := false;
      k := k + 1;
      while k < |p|
        invariant i + 3 <= k <= |p|
        invariant postfix == p[i + 3..k]
        invariant CloseAt(p, i + 3) == CloseAt(p, k)
        decreases |p| - k
      {
        var c := p[k];
        k := k + 1;
        if c != '}' {
          postfix := postfix + [c];
        } else {
          foundEnd := true;
          break;
        }
      }
      if !foundEnd {
        return Err(MissingPostfixEnd);
      }
    }
    r := Ok((Code(code, postfix), k));
  }
}
