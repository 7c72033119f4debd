/** The MCP service's server listing (offset and limit paging over the client's
    servers) and tool invocation, which turns every failure into an error result.
    The MCP client itself is a value: its connection count and its server list. */
module McpService {
  import opened Wrappers
  import opened Seqs

  /** A server as the client reports it; `T` is the client's tool description. */
  datatype Server<T> = Server(name: string, status: string, tools: Option<seq<T>>,
                              error: Option<string>, disabled: bool)

  datatype ServersDetails<T> = ServersDetails(name: string, status: string, toolCount: nat,
                                              tools: seq<T>, error: Option<string>, disabled: bool)

  /** The client: how many connections it holds, and its servers of every status. */
  datatype Client<T> = Client(connections: nat, servers: seq<Server<T>>)

  /** One listed server: a missing tool list counts as no tools. */
  function Details<T>(s: Server<T>): (d: ServersDetails<T>)
    ensures d.toolCount == |d.tools|
    ensures d.tools == (if s.tools.Some? then s.tools.value else [])
    ensures d.name == s.name && d.status == s.status && d.error == s.error && d.disabled == s.disabled
  {
    var tools := if s.tools.Some? && |s.tools.value| > 0 then s.tools.value else [];
    ServersDetails(s.name, s.status, if s.tools.Some? && |s.tools.value| > 0 then |s.tools.value| else 0,
                   tools, s.error, s.disabled)
  }

  /** The details of every server, in order. Its elementwise meaning is the lemma
      `ListDetailsAt`, not an ensures, so that reasoning about pages stays cheap. */
  function ListDetails<T>(servers: seq<Server<T>>): (r: seq<ServersDetails<T>>)
    ensures |r| == |servers|
  {
    if |servers| == 0 then [] else [Details(servers[0])] + ListDetails(servers[1..])
  }

  lemma {:induction false} ListDetailsAt<T>(servers: seq<Server<T>>, i: nat)
    requires i < |servers|
    ensures ListDetails(servers)[i] == Details(servers[i])
  {
    if i > 0 {
      ListDetailsAt(servers[1..], i - 1);
    }
  }

  lemma {:induction false} ListDetailsAppend<T>(p: seq<Server<T>>, q: seq<Server<T>>)
    ensures ListDetails(p + q) == ListDetails(p) + ListDetails(q)
  {
    if |p| > 0 {
      assert (p + q)[1..] == p[1..] + q;
      ListDetailsAppend(p[1..], q);
      assert ListDetails(p + q) == [Details(p[0])] + (ListDetails(p[1..]) + ListDetails(q));
    } else {
      assert p + q == q;
    }
  }

  /** `create_server_list`: nothing past the connection count; a limit of -1 means the
      connection count; otherwise the servers in the Python slice [offset, offset+limit). */
  function CreateServerList<T>(c: Client<T>, limit: int, offset: int): (r: seq<ServersDetails<T>>)
    ensures offset > c.connections ==> r == []
    ensures |r| <= |c.servers|
  {
    if offset > c.connections then []
    else
      var lim := if limit == -1 then c.connections else limit;
      ListDetails(PySlice(c.servers, offset, offset + lim))
  }

  /** Within the connection count, a page holds the servers from the offset on, at
      most `limit` of them, in the client's order. */
  lemma ServerListContents<T>(c: Client<T>, limit: int, offset: int)
    requires 0 <= offset <= c.connections && limit >= 0
    ensures var r := CreateServerList(c, limit, offset);
            |r| == (if offset >= |c.servers| then 0 else Min(limit, |c.servers| - offset)) &&
            forall i :: 0 <= i < |r| ==> r[i] == Details(c.servers[offset + i])
  {
    var r := CreateServerList(c, limit, offset);
    var page := PySlice(c.servers, offset, offset + limit);
    assert r == ListDetails(page);
    assert |page| == (if offset >= |c.servers| then 0 else Min(limit, |c.servers| - offset));
    forall i | 0 <= i < |page|
      ensures r[i] == Details(c.servers[offset + i])
    {
      ListDetailsAt(page, i);
      assert page[i] == c.servers[offset + i];
    }
  }

  function Min(a: int, b: int): int {
    if a <= b then a else b
  }

  /** A limit of -1 lists as much as a limit equal to the connection count. */
  lemma AllMeansConnections<T>(c: Client<T>, offset: int)
    ensures CreateServerList(c, -1, offset) == CreateServerList(c, c.connections, offset)
  {
  }

  lemma SliceTile<X>(s: seq<X>, o: nat, m: nat, e: nat)
    requires o <= m <= e
    ensures PySlice(s, o, m) + PySlice(s, m, e) == PySlice(s, o, e)
  {
    if m < |s| && o < m {
      var hi := if e <= |s| then e else |s|;
      assert s[o..m] + s[m..hi] == s[o..hi];
    }
  }

  lemma DetailsSliceTile<T>(s: seq<Server<T>>, o: nat, m: nat, e: nat)
    requires o <= m <= e
    ensures ListDetails(PySlice(s, o, m)) + ListDetails(PySlice(s, m, e)) == ListDetails(PySlice(s, o, e))
  {
    SliceTile(s, o, m, e);
    ListDetailsAppend(PySlice(s, o, m), PySlice(s, m, e));
  }

  /** Within the connection count, a page is the details of the Python slice. */
  lemma ListIsSlice<T>(c: Client<T>, limit: nat, offset: nat, end: nat)
    requires offset <= c.connections && end == offset + limit
    ensures CreateServerList(c, limit, offset) == ListDetails(PySlice(c.servers, offset, end))
  {
  }

  lemma PagesMeet<T>(c: Client<T>, o: nat, a: nat, m: nat, b: nat, n: nat, e: nat)
    requires m == o + a && n == a + b && e == m + b && m <= c.connections
    ensures CreateServerList(c, a, o) + CreateServerList(c, b, m) == CreateServerList(c, n, o)
  {
    ListIsSlice(c, a, o, m);
    ListIsSlice(c, b, m, e);
    ListIsSlice(c, n, o, e);
    DetailsSliceTile(c.servers, o, m, e);
  }

  /** Two consecutive pages list exactly what one page of their combined size lists. */
  lemma PagesTile<T>(c: Client<T>, offset: nat, a: nat, b: nat)
    requires offset + a <= c.connections
    ensures CreateServerList(c, a, offset) + CreateServerList(c, b, offset + a) == CreateServerList(c, a + b, offset)
  {
    var m, n, e := offset + a, a + b, offset + a + b;
    PagesMeet(c, offset, a, m, b, n, e);
    assert CreateServerList(c, b, m) == CreateServerList(c, b, offset + a);
    assert CreateServerList(c, n, offset) == CreateServerList(c, a + b, offset);
  }

  /** `get_servers`: no client, no servers. */
  function GetServers<T>(client: Option<Client<T>>, limit: int, offset: int): (r: seq<ServersDetails<T>>)
    ensures client.None? ==> r == []
    ensures client.Some? ==> r == CreateServerList(client.value, limit, offset)
  {
    match client
    case None => []
    case Some(c) => CreateServerList(c, limit, offset)
  }

  /** The defaults (limit -1, offset 0), as `sync_mcp_servers` asks for them: every
      server up to the connection count, in the client's order. */
  lemma DefaultListing<T>(c: Client<T>)
    ensures var r := GetServers(Some(c), -1, 0);
            |r| == Min(c.connections, |c.servers|) &&
            forall i :: 0 <= i < |r| ==> r[i] == Details(c.servers[i])
  {
    AllMeansConnections(c, 0);
    ServerListContents(c, c.connections, 0);
  }

  datatype TextContent = TextContent(kind: string, text: string)

  datatype CallToolResult = CallToolResult(isError: bool, content: seq<TextContent>)

  const ErrorPrefix := "Error: "

  /** `invoke_tool`: the client's result, or an error result whose one text item
      carries the failure's message. */
  function InvokeTool(call: Result<CallToolResult>): (r: CallToolResult)
    ensures call.Ok? ==> r == call.value
    ensures call.Err? ==> r.isError && |r.content| == 1 && r.content[0].kind == "text" &&
                          |r.content[0].text| >= |ErrorPrefix| &&
                          r.content[0].text[..|ErrorPrefix|] == ErrorPrefix &&
                          r.content[0].text[|ErrorPrefix|..] == call.msg
  {
    match call
    case Ok(result) => result
    case Err(msg) => CallToolResult(true, [TextContent("text", ErrorPrefix + msg)])
  }
}
