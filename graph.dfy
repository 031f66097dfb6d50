/**
 * The agent graph of `agent/graph.py`: four nodes run in a fixed order, with one conditional
 * edge after command parsing that either executes the commands or goes straight to output.
 */
module Graph {

  datatype Node = GenerateResponse | ParseCommands | ExecuteCommands | FormatOutput | End

  /** The labels `should_execute_commands` returns. */
  datatype Route = Execute | FormatDirect

  /** `should_execute_commands(state)`: execute only in agent mode with commands to run. */
  function ShouldExecuteCommands(isAgentMode: bool, extractedCommands: seq<string>): (r: Route)
    ensures r == Execute <==> isAgentMode && extractedCommands != []
  {
    if isAgentMode && extractedCommands != [] then Execute else FormatDirect
  }

  /** `set_entry_point("generate_response")` */
  const Entry: Node := GenerateResponse

  /** The edge table; `route` is what the router returned after `parse_commands`. */
  function Next(n: Node, route: Route): (m: Node)
    requires n != End
    ensures Rank(m) < Rank(n)
  {
    match n
    case GenerateResponse => ParseCommands
    case ParseCommands => if route == Execute then ExecuteCommands else FormatOutput
    case ExecuteCommands => FormatOutput
    case FormatOutput => End
  }

  /** Steps left to `End`; every edge lowers it. */
  function Rank(n: Node): nat {
    match n
    case GenerateResponse => 4
    case ParseCommands => 3
    case ExecuteCommands => 2
    case FormatOutput => 1
    case End => 0
  }

  /** The nodes visited from `n` up to and including `End`. */
  function Run(n: Node, route: Route): (path: seq<Node>)
    ensures path != [] && path[0] == n && path[|path| - 1] == End
    decreases Rank(n)
  {
    if n == End then [End] else [n] + Run(Next(n, route), route)
  }

  /** A run follows the edge table: each node before `End` is followed by its successor. */
  lemma {:induction false} RunFollowsEdges(n: Node, route: Route, k: nat)
    requires k + 1 < |Run(n, route)|
    ensures Run(n, route)[k] != End
    ensures Run(n, route)[k + 1] == Next(Run(n, route)[k], route)
    decreases Rank(n)
  {
    if k > 0 {
      RunFollowsEdges(Next(n, route), route, k - 1);
    }
  }

  /**
   * Every run from a node other than `End` meets `format_output` exactly once: as the node
   * just before `End`, and nowhere earlier.
   */
  lemma {:induction false} FormatOnceFrom(n: Node, route: Route)
    requires n != End
    ensures var path := Run(n, route);
      |path| >= 2 && path[|path| - 2] == FormatOutput && FormatOutput !in path[..|path| - 2]
    decreases Rank(n)
  {
    var path := Run(n, route);
    if n == FormatOutput {
      assert path == [FormatOutput, End];
    } else {
      var m := Next(n, route);
      var rest := Run(m, route);
      FormatOnceFrom(m, route);
      assert path == [n] + rest;
      assert path[..|path| - 2] == [n] + rest[..|rest| - 2];
    }
  }

  /** A run from the entry node executes the commands exactly when the router says so. */
  lemma RunFromEntry(route: Route)
    ensures route == Execute ==>
      Run(Entry, route) == [GenerateResponse, ParseCommands, ExecuteCommands, FormatOutput, End]
    ensures route == FormatDirect ==>
      Run(Entry, route) == [GenerateResponse, ParseCommands, FormatOutput, End]
    ensures ExecuteCommands in Run(Entry, route) <==> route == Execute
  {
  }

  /** Every run starts at `generate_response`, which is followed by `parse_commands`. */
  lemma GenerateThenParse(route: Route)
    ensures var path := Run(Entry, route); |path| >= 2 && path[0] == GenerateResponse && path[1] == ParseCommands
  {
  }

  /** `execute_commands`, wherever it appears, is followed by `format_output`. */
  lemma ExecuteThenFormat(route: Route, k: nat)
    requires k + 1 < |Run(Entry, route)| && Run(Entry, route)[k] == ExecuteCommands
    ensures Run(Entry, route)[k + 1] == FormatOutput
  {
    RunFollowsEdges(Entry, route, k);
  }
}
