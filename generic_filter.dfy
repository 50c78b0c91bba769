/** `GenericFilter`: a filter of an ffmpeg filter graph, built step by step from input
    link labels, a filter name and `key=value` arguments, and rendered as the text
    ffmpeg reads (`[0:1][0:2]amerge`, `color=c=red@0.2:s=qcif:r=10`); and
    `GenericFilter.escape`, which quotes the characters the filter-graph syntax
    reserves inside an argument value. */
module GenericFilters {
  import opened Text

  /** The characters `Escape` rewrites. */
  predicate Special(c: char) {
    c == '\\' || c == '\'' || c == ':' || c == ','
  }

  /** One character escaped: a backslash doubled, a quote after three backslashes, a
      colon after two, a comma after one; any other character unchanged. */
  function EscapeChar(c: char): string {
    match c
    case '\\' => "\\\\"
    case '\'' => "\\\\\\'"
    case ':' => "\\\\:"
    case ',' => "\\,"
    case _ => [c]
  }

  /** `GenericFilter.escape`: every character escaped in turn. Escaping never
      shortens a string. */
  function Escape(s: string): (r: string)
    ensures |r| >= |s|
    decreases |s|
  {
    if s == [] then "" else EscapeChar(s[0]) + Escape(s[1..])
  }

  /** No character `Escape` rewrites. */
  predicate Plain(s: string) {
    forall i :: 0 <= i < |s| ==> !Special(s[i])
  }

  /** `Escape` leaves a string unchanged exactly when it holds no special character,
      and lengthens it otherwise. */
  lemma {:induction false} EscapePlain(s: string)
    ensures Plain(s) <==> Escape(s) == s
    ensures Plain(s) <==> |Escape(s)| == |s|
    decreases |s|
  {
    if s != [] {
      EscapePlain(s[1..]);
      var r := Escape(s);
      assert r == EscapeChar(s[0]) + Escape(s[1..]);
      assert Plain(s) <==> !Special(s[0]) && Plain(s[1..]) by {
        if !Special(s[0]) && Plain(s[1..]) {
          forall i | 0 <= i < |s|
            ensures !Special(s[i])
          {
            if i > 0 {
              assert s[i] == s[1..][i - 1];
            }
          }
        }
      }
      if !Special(s[0]) {
        assert r == [s[0]] + Escape(s[1..]);
        assert s == [s[0]] + s[1..];
      }
    }
  }

  /** Escaping distributes over concatenation. */
  lemma {:induction false} EscapeAppend(a: string, b: string)
    ensures Escape(a + b) == Escape(a) + Escape(b)
    decreases |a|
  {
    if a == [] {
      assert a + b == b;
    } else {
      assert (a + b)[0] == a[0];
      assert (a + b)[1..] == a[1..] + b;
      EscapeAppend(a[1..], b);
    }
  }

  /** Reads back what `Escape` writes: the escape sequences of the four special
      characters become those characters again; anything else is copied. */
  function Unescape(s: string): string
    decreases |s|
  {
    if s == [] then ""
    else if s[0] != '\\' || |s| == 1 then [s[0]] + Unescape(s[1..])
    else if s[1] == ',' then [','] + Unescape(s[2..])
    else if s[1] != '\\' then [s[0]] + Unescape(s[1..])
    else if |s| >= 3 && s[2] == ':' then [':'] + Unescape(s[3..])
    else if |s| >= 4 && s[2] == '\\' && s[3] == '\'' then ['\''] + Unescape(s[4..])
    else ['\\'] + Unescape(s[2..])
  }

  /** An escaped string never starts with a bare colon or comma, and when it starts
      with a backslash the next character is not a quote. */
  lemma EscapedStart(s: string)
    ensures var e := Escape(s);
      e != [] ==> e[0] != ':' && e[0] != ',' && (|e| >= 2 && e[0] == '\\' ==> e[1] != '\'')
  {
    if s != [] {
      var head := EscapeChar(s[0]);
      var e := head + Escape(s[1..]);
      assert e[0] == head[0];
      if |e| >= 2 && e[0] == '\\' {
        assert Special(s[0]) && |head| >= 2;
        assert e[1] == head[1];
      }
    }
  }

  /** Unescaping one escaped character in front of an escaped rest. */
  lemma UnescapeStep(c: char, rest: string)
    ensures Unescape(EscapeChar(c) + Escape(rest)) == [c] + Unescape(Escape(rest))
  {
    var e := Escape(rest);
    var t := EscapeChar(c) + e;
    EscapedStart(rest);
    if c == '\\' {
      assert t[..2] == "\\\\" && t[2..] == e;
      if |t| >= 4 {
        assert t[2] == e[0] && t[3] == e[1];
      }
    } else if c == '\'' {
      assert t[..4] == "\\\\\\'" && t[4..] == e;
    } else if c == ':' {
      assert t[..3] == "\\\\:" && t[3..] == e;
    } else if c == ',' {
      assert t[..2] == "\\," && t[2..] == e;
    } else {
      assert t[0] == c && t[1..] == e;
    }
  }

  /** `Escape` loses nothing: unescaping its output gives the input back. */
  lemma {:induction false} UnescapeEscape(s: string)
    ensures Unescape(Escape(s)) == s
    decreases |s|
  {
    if s != [] {
      UnescapeStep(s[0], s[1..]);
      UnescapeEscape(s[1..]);
      assert [s[0]] + s[1..] == s;
    }
  }

  /** The escapes the library documents one character at a time. */
  lemma EscapeSingles()
    ensures Escape("\\") == "\\\\"
    ensures Escape("'") == "\\\\\\'"
    ensures Escape(":") == "\\\\:"
    ensures Escape(",") == "\\,"
  {
    assert Escape("\\") == EscapeChar('\\') + Escape("");
    assert Escape("'") == EscapeChar('\'') + Escape("");
    assert Escape(":") == EscapeChar(':') + Escape("");
    assert Escape(",") == EscapeChar(',') + Escape("");
  }

  /** Escaping a piece appended to an already escaped prefix. */
  lemma EscapeStep(done: string, escaped: string, piece: string)
    requires Escape(done) == escaped
    ensures Escape(done + piece) == escaped + Escape(piece)
  {
    EscapeAppend(done, piece);
  }

  /** The documented sentence `this is a 'string': may contain one, or more, special
      characters`, with its words abstracted: the quotes, the colon and the commas are
      escaped and the text between them is kept. */
  lemma EscapeSentence(s1: string, s2: string, s3: string, s4: string, s5: string)
    requires Plain(s1) && Plain(s2) && Plain(s3) && Plain(s4) && Plain(s5)
    ensures Escape(s1 + "'" + s2 + "'" + ":" + s3 + "," + s4 + "," + s5)
         == s1 + "\\\\\\'" + s2 + "\\\\\\'" + "\\\\:" + s3 + "\\," + s4 + "\\," + s5
  {
    var quote, colon, comma := "\\\\\\'", "\\\\:", "\\,";
    EscapeSingles();
    EscapePlain(s1);
    EscapePlain(s2);
    EscapePlain(s3);
    EscapePlain(s4);
    EscapePlain(s5);
    EscapeStep(s1, s1, "'");
    EscapeStep(s1 + "'", s1 + quote, s2);
    EscapeStep(s1 + "'" + s2, s1 + quote + s2, "'");
    EscapeStep(s1 + "'" + s2 + "'", s1 + quote + s2 + quote, ":");
    EscapeStep(s1 + "'" + s2 + "'" + ":", s1 + quote + s2 + quote + colon, s3);
    EscapeStep(s1 + "'" + s2 + "'" + ":" + s3, s1 + quote + s2 + quote + colon + s3, ",");
    EscapeStep(s1 + "'" + s2 + "'" + ":" + s3 + ",", s1 + quote + s2 + quote + colon + s3 + comma, s4);
    EscapeStep(s1 + "'" + s2 + "'" + ":" + s3 + "," + s4,
               s1 + quote + s2 + quote + colon + s3 + comma + s4, ",");
    EscapeStep(s1 + "'" + s2 + "'" + ":" + s3 + "," + s4 + ",",
               s1 + quote + s2 + quote + colon + s3 + comma + s4 + comma, s5);
  }

  /** `[link]` for every input link, in the order they were added. */
  function Links(links: seq<string>): string
    decreases |links|
  {
    if links == [] then "" else "[" + links[0] + "]" + Links(links[1..])
  }

  /** One more link is one more `[link]` at the end. */
  lemma {:induction false} LinksSnoc(links: seq<string>, link: string)
    ensures Links(links + [link]) == Links(links) + "[" + link + "]"
    decreases |links|
  {
    if links == [] {
      assert Links([link]) == "[" + link + "]" + Links([]);
    } else {
      assert (links + [link])[0] == links[0];
      assert (links + [link])[1..] == links[1..] + [link];
      LinksSnoc(links[1..], link);
    }
  }

  /** `key=value` for every argument, in the order they were added. */
  function ArgumentStrings(arguments: seq<(string, string)>): (r: seq<string>)
    ensures |r| == |arguments|
  {
    seq(|arguments|, i requires 0 <= i < |arguments| => arguments[i].0 + "=" + arguments[i].1)
  }

  /** Nothing without arguments; otherwise `=` and the arguments separated by `:`. */
  function ArgumentList(arguments: seq<(string, string)>): string {
    if arguments == [] then "" else "=" + Join(ArgumentStrings(arguments), ':')
  }

  /** `GenericFilter.getValue`: the input links, the name, then the argument list. */
  function FilterValue(links: seq<string>, name: string, arguments: seq<(string, string)>): string {
    Links(links) + name + ArgumentList(arguments)
  }

  /** One more argument: `=key=value` after the first, `:key=value` after any other. */
  lemma ArgumentListSnoc(arguments: seq<(string, string)>, key: string, value: string)
    ensures ArgumentList(arguments + [(key, value)])
      == ArgumentList(arguments) + (if arguments == [] then "=" else ":") + key + "=" + value
  {
    var parts := ArgumentStrings(arguments);
    assert ArgumentStrings(arguments + [(key, value)]) == parts + [key + "=" + value];
    JoinSnoc(parts, key + "=" + value, ':');
  }

  /** Reading the argument list back: when no key and no value holds a colon,
      splitting after the `=` at `:` gives back the `key=value` strings. */
  lemma ArgumentListSplits(arguments: seq<(string, string)>)
    requires arguments != []
    requires forall i :: 0 <= i < |arguments| ==> ':' !in arguments[i].0 && ':' !in arguments[i].1
    ensures var list := ArgumentList(arguments);
      list[0] == '=' && Split(list[1..], ':') == ArgumentStrings(arguments)
  {
    var parts := ArgumentStrings(arguments);
    forall k | 0 <= k < |parts|
      ensures ':' !in parts[k]
    {
      assert parts[k] == arguments[k].0 + "=" + arguments[k].1;
    }
    SplitJoin(parts, ':');
    assert ArgumentList(arguments)[1..] == Join(parts, ':');
  }

  /** A filter being built: the `GenericFilter` object the fluent setters update. */
  class GenericFilter {
    var inputLinks: seq<string>
    var name: string
    var arguments: seq<(string, string)>

    /** A new filter has no links, no arguments and an empty name. */
    constructor()
      ensures inputLinks == [] && name == "" && arguments == []
    {
      inputLinks := [];
      name := "";
      arguments := [];
    }

    /** The rendered filter, as `getValue` returns it. */
    function Value(): string
      reads this
    {
      FilterValue(inputLinks, name, arguments)
    }

    /** `addInputLink`: the link is rendered `[link]` after the ones before it. */
    method AddInputLink(link: string)
      modifies this
      ensures inputLinks == old(inputLinks) + [link]
      ensures name == old(name) && arguments == old(arguments)
      ensures Value() == Links(old(inputLinks)) + "[" + link + "]" + name + ArgumentList(arguments)
    {
      LinksSnoc(inputLinks, link);
      inputLinks := inputLinks + [link];
    }

    /** `setName`: replaces the name; links and arguments stay. */
    method SetName(newName: string)
      modifies this
      ensures name == newName
      ensures inputLinks == old(inputLinks) && arguments == old(arguments)
    {
      name := newName;
    }

    /** `addArgument`: the argument is rendered after the ones before it. */
    method AddArgument(key: string, value: string)
      modifies this
      ensures arguments == old(arguments) + [(key, value)]
      ensures inputLinks == old(inputLinks) && name == old(name)
      ensures Value() == old(Value()) + (if old(arguments) == [] then "=" else ":") + key + "=" + value
    {
      ArgumentListSnoc(arguments, key, value);
      arguments := arguments + [(key, value)];
    }
  }

  /** Two input links and a name with no arguments: `[0:1][0:2]amerge`. */
  method MergeExample() returns (value: string)
    ensures value == "[0:1]" + "[0:2]" + "amerge"
  {
    var filter := new GenericFilter();
    filter.AddInputLink("0:1");
    assert Links(filter.inputLinks) == "[0:1]" by {
      assert filter.Value() == Links([]) + "[" + "0:1" + "]" + "" + ArgumentList([]);
    }
    filter.AddInputLink("0:2");
    assert Links(filter.inputLinks) == "[0:1]" + "[0:2]" by {
      LinksSnoc(["0:1"], "0:2");
    }
    filter.SetName("amerge");
    value := filter.Value();
    assert ArgumentList(filter.arguments) == "";
    assert value == "[0:1]" + "[0:2]" + "amerge" + "";
  }

  /** A name and three arguments with no links: `color=c=red@0.2:s=qcif:r=10`. */
  method ColorExample() returns (value: string)
    ensures value == "color" + "=" + "c" + "=" + "red@0.2" + ":" + "s" + "=" + "qcif" + ":" + "r" + "=" + "10"
  {
    var filter := new GenericFilter();
    filter.SetName("color");
    assert filter.Value() == "color";
    filter.AddArgument("c", "red@0.2");
    assert filter.Value() == "color" + "=" + "c" + "=" + "red@0.2";
    filter.AddArgument("s", "qcif");
    assert filter.Value() == "color" + "=" + "c" + "=" + "red@0.2" + ":" + "s" + "=" + "qcif";
    filter.AddArgument("r", "10");
    value := filter.Value();
  }
}
