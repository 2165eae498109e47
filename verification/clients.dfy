/** The client registry (`Clients.txt`, read in `write_xlsx`): one line per
    client, `NAME:SCRIP1;SCRIP2;...`, with '#' marking a comment line. The
    lines arrive as `readlines()` returns them, terminators included. */
module Clients {
  import opened Outcomes
  import opened Text
  import Seqs

  datatype ClientLine = Comment | Client(name: string, scrips: seq<string>)

  /** A line without ':' fails at `split(':')[1]`; a line whose name is empty
      fails at `client_name[0]`, which is evaluated second. */
  datatype LineError = MissingSeparator | EmptyName

  datatype RegistryError = BadLine(line: nat, reason: LineError)

  const CommentMarker := '#'

  /** The single line written into a newly created registry. */
  const TemplateText := "#NAMEOFCLIENT:SCRIP1;SCRIP2;SCRIP3..."
  const Template := TemplateText + "\n"

  /** The text up to the first ':', or all of it when there is none. */
  function FirstField(s: string): (f: string)
    ensures ':' !in f
    ensures |f| <= |s| && s[..|f|] == f
    ensures |f| == |s| || s[|f|] == ':'
  {
    if ':' in s then s[..IndexOf(s, ':')] else s
  }

  /** The text after the first ':'. */
  function AfterSeparator(info: string): (rest: string)
    requires ':' in info
    ensures |FirstField(info)| < |info| && rest == info[|FirstField(info)| + 1..]
  {
    info[IndexOf(info, ':') + 1..]
  }

  /** The text after the first ':' up to the next ':' or the end of the line. */
  function SecondField(info: string): (f: string)
    requires ':' in info
    ensures ':' !in f
  {
    FirstField(AfterSeparator(info))
  }

  /** One registry line: newlines removed, split on ':', the first field is
      the name and the second, split on ';', the scrips. */
  function ParseClientLine(raw: string): Result<ClientLine, LineError> {
    var info := RemoveAll(raw, '\n');
    var fields := Split(info, ':');
    if |fields| < 2 then Err(MissingSeparator)
    else
      var name := fields[0];
      var scrips := Split(fields[1], ';');
      if name == [] then Err(EmptyName)
      else if name[0] == CommentMarker then Ok(Comment)
      else Ok(Client(name, scrips))
  }

  /** The first piece of a split on ':' is the first field. */
  lemma SplitFirstField(info: string)
    ensures Split(info, ':')[0] == FirstField(info)
  {
    SplitFirstPiece(info, ':');
  }

  /** Splitting on ':' has a second piece exactly when there is a ':', and
      that piece is the second field. */
  lemma SplitFields(info: string)
    ensures |Split(info, ':')| >= 2 <==> ':' in info
    ensures ':' in info ==> Split(info, ':')[1] == SecondField(info)
  {
    SplitFirstPiece(info, ':');
    if ':' in info {
      var rest := AfterSeparator(info);
      assert rest == info[IndexOf(info, ':') + 1..];
      var parts := Split(info, ':');
      assert parts == [info[..IndexOf(info, ':')]] + Split(rest, ':');
      assert parts[1] == Split(rest, ':')[0];
      SplitFirstField(rest);
    }
  }

  /** What a registry line means: a line without ':' is malformed, an empty
      name is malformed, a name starting with '#' is a comment, and otherwise
      the client is the first field with the second field's ';'-pieces. */
  lemma ParseClientLineSpec(raw: string)
    ensures var r := ParseClientLine(raw);
      var info := RemoveAll(raw, '\n');
      && (r == Err(MissingSeparator) <==> ':' !in info)
      && (r == Err(EmptyName) <==> ':' in info && info[0] == ':')
      && (r == Ok(Comment) <==> ':' in info && info[0] == CommentMarker)
      && (r.Ok? && r.value.Client? ==>
            && r.value.name == FirstField(info)
            && r.value.name != [] && r.value.name[0] != CommentMarker
            && r.value.scrips == Split(SecondField(info), ';'))
  {
    var info := RemoveAll(raw, '\n');
    SplitFirstField(info);
    SplitFields(info);
    if ':' in info {
      var name := FirstField(info);
      assert name == [] <==> info[0] == ':';
      assert name != [] ==> name[0] == info[0];
    }
  }

  /** The registry line for a client: `NAME:SCRIP1;SCRIP2;...` and a newline. */
  function FormatClientLine(name: string, scrips: seq<string>): string {
    name + ":" + Join(scrips, ';') + "\n"
  }

  /** Text a registry line can carry in a name or a scrip. */
  predicate PlainField(s: string) {
    ':' !in s && ';' !in s && '\n' !in s
  }

  /** A character in none of the pieces, and not the separator, is not in
      their join. */
  lemma {:induction false} JoinAbsent(parts: seq<string>, sep: char, c: char)
    requires c != sep
    requires forall i :: 0 <= i < |parts| ==> c !in parts[i]
    ensures c !in Join(parts, sep)
    decreases |parts|
  {
    if |parts| > 1 {
      JoinAbsent(parts[1..], sep, c);
    }
  }

  /** Reading a formatted client line gives the client back. */
  lemma ParseFormat(name: string, scrips: seq<string>)
    requires name != [] && name[0] != CommentMarker && PlainField(name)
    requires |scrips| >= 1 && forall i :: 0 <= i < |scrips| ==> PlainField(scrips[i])
    ensures ParseClientLine(FormatClientLine(name, scrips)) == Ok(Client(name, scrips))
  {
    var joined := Join(scrips, ';');
    JoinAbsent(scrips, ';', ':');
    JoinAbsent(scrips, ';', '\n');
    var info := name + ":" + joined;
    assert '\n' !in info by {
      assert forall i :: 0 <= i < |info| ==> info[i] != '\n' by {
        forall i | 0 <= i < |info| ensures info[i] != '\n' {
          if i < |name| { assert info[i] == name[i]; }
          else if i > |name| { assert info[i] == joined[i - |name| - 1]; }
        }
      }
    }
    RemoveTerminator(info, '\n');
    SplitAtFirst(name, ':', joined);
    SplitNoSeparator(joined, ':');
    SplitJoin(scrips, ';');
  }

  /** A client line is its name, ':', its scrips joined by ';', and then
      either nothing or a ':' followed by text that plays no part. */
  lemma ClientLineShape(raw: string)
    requires ParseClientLine(raw).Ok? && ParseClientLine(raw).value.Client?
    ensures var c := ParseClientLine(raw).value;
      var info := RemoveAll(raw, '\n');
      var head := c.name + ":" + Join(c.scrips, ';');
      && ':' !in c.name
      && (forall i :: 0 <= i < |c.scrips| ==> ':' !in c.scrips[i] && ';' !in c.scrips[i])
      && |head| <= |info| && info[..|head|] == head
      && (|head| == |info| || info[|head|] == ':')
  {
    var info := RemoveAll(raw, '\n');
    ParseClientLineSpec(raw);
    var f := SecondField(info);
    JoinSplit(f, ';');
    SplitKeepsAbsence(f, ';', ':');
    SecondFieldShape(info);
  }

  /** The second field sits right after the first ':' and is followed by the
      end of the line or another ':'. */
  lemma SecondFieldShape(info: string)
    requires ':' in info
    ensures var head := FirstField(info) + ":" + SecondField(info);
      |head| <= |info| && info[..|head|] == head && (|head| == |info| || info[|head|] == ':')
  {
    var k := |FirstField(info)|;
    var f := SecondField(info);
    assert info[..k] == FirstField(info);
    SliceThrough(info, k, f);
    assert k + 1 + |f| == |info| || info[k + 1 + |f|] == AfterSeparator(info)[|f|];
  }

  /** The slice of `s` through index `k` and the `f` that follows it. */
  lemma SliceThrough(s: string, k: nat, f: string)
    requires k < |s| && k + 1 + |f| <= |s| && s[k + 1..][..|f|] == f
    ensures s[..k + 1 + |f|] == s[..k] + [s[k]] + f
  {
    var t := s[k + 1..];
    forall i | k < i < k + 1 + |f|
      ensures s[..k + 1 + |f|][i] == (s[..k] + [s[k]] + f)[i]
    {
      assert f[i - k - 1] == t[i - k - 1];
    }
  }

  /** A character absent from a string is absent from all its pieces. */
  lemma {:induction false} SplitKeepsAbsence(s: string, sep: char, c: char)
    requires c !in s
    ensures forall i :: 0 <= i < |Split(s, sep)| ==> c !in Split(s, sep)[i]
    decreases |s|
  {
    if s != [] {
      SplitKeepsAbsence(s[1..], sep, c);
    }
  }

  /** The template written into a new registry is a comment. */
  lemma TemplateIsComment()
    ensures ParseClientLine(Template) == Ok(Comment)
  {
    assert '\n' !in TemplateText;
    RemoveTerminator(TemplateText, '\n');
    // The first ':' follows the 13-character placeholder "#NAMEOFCLIENT".
    assert TemplateText[13] == ':';
    ParseClientLineSpec(Template);
  }

  /** Neither a blank line nor a comment without ':' is skipped: both fail
      before the comment marker is looked at. */
  lemma LinesWithoutSeparator(text: string)
    requires ':' !in text && '\n' !in text
    ensures ParseClientLine(text + "\n") == Err(MissingSeparator)
    ensures ParseClientLine("\n") == Err(MissingSeparator)
  {
    RemoveTerminator(text, '\n');
    RemoveTerminator("", '\n');
    ParseClientLineSpec(text + "\n");
    ParseClientLineSpec("\n");
  }

  /** All lines in file order; the first line that fails aborts the read. */
  function ParseRegistry(lines: seq<string>): (r: Result<seq<ClientLine>, RegistryError>)
    ensures r.Ok? <==> forall i :: 0 <= i < |lines| ==> ParseClientLine(lines[i]).Ok?
    ensures r.Ok? ==> |r.value| == |lines|
    ensures r.Ok? ==> forall i :: 0 <= i < |lines| ==> ParseClientLine(lines[i]) == Ok(r.value[i])
    ensures r.Err? ==>
      && r.error.line < |lines|
      && ParseClientLine(lines[r.error.line]) == Err(r.error.reason)
      && forall i :: 0 <= i < r.error.line ==> ParseClientLine(lines[i]).Ok?
    decreases |lines|
  {
    if lines == [] then Ok([])
    else
      var first := ParseClientLine(lines[0]);
      var rest := ParseRegistry(lines[1..]);
      assert forall i :: 1 <= i < |lines| ==> lines[i] == lines[1..][i - 1];
      if first.Err? then Err(BadLine(0, first.error))
      else if rest.Err? then Err(BadLine(rest.error.line + 1, rest.error.reason))
      else Ok([first.value] + rest.value)
  }

  predicate IsClient(e: ClientLine) {
    e.Client?
  }

  /** The entries that get a sheet: the non-comment lines, in file order. */
  function Registered(entries: seq<ClientLine>): (r: seq<ClientLine>)
    ensures forall i :: 0 <= i < |r| ==> r[i].Client?
  {
    Seqs.FilterSpec(entries, IsClient);
    Seqs.Filter(entries, IsClient)
  }

  /** Registration keeps every client line, as often as it occurs, in file
      order, and drops the comments. */
  lemma RegisteredSpec(entries: seq<ClientLine>)
    ensures Seqs.IsSubsequence(Registered(entries), entries)
    ensures forall e: ClientLine :: multiset(Registered(entries))[e] == if e.Client? then multiset(entries)[e] else 0
  {
    Seqs.FilterSpec(entries, IsClient);
  }

  /** A registry of comments only registers nobody. */
  lemma CommentsOnly(entries: seq<ClientLine>)
    requires forall i :: 0 <= i < |entries| ==> entries[i] == Comment
    ensures Registered(entries) == []
  {
    Seqs.FilterAllOrNone(entries, IsClient);
  }
}
