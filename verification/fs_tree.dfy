/** The filesystem seen by the two hashing scripts, as an immutable tree.
    `fs.statSync` follows symbolic links, so a link appears here as whatever it points to;
    the last three constructors stand for the calls that throw. */
module FsTree {
  import opened Ordering

  type Byte = b: int | 0 <= b < 256

  datatype Node =
    | Dir(children: seq<Entry>)   // raw `readdirSync` order
    | File(bytes: seq<Byte>)
    | Other                       // neither directory nor regular file (socket, device, fifo)
    | UnlistableDir               // a directory whose `readdirSync` throws
    | UnreadableFile              // a regular file whose `readFileSync` throws
    | Vanished                    // `statSync` throws (a dangling link, a removed entry)

  datatype Entry = Entry(name: string, node: Node)

  function NameOf(e: Entry): string {
    e.name
  }

  /** What `Array.prototype.sort` compares: the name's UTF-16 code units. */
  function SortKey(e: Entry): seq<int> {
    Utf16(e.name)
  }

  /** Distinct names have distinct sort keys. */
  lemma SortKeysUnique(cs: seq<Entry>)
    requires UniqueKeys(cs, NameOf)
    ensures UniqueKeys(cs, SortKey)
  {
    forall i, j | 0 <= i < j < |cs|
      ensures SortKey(cs[i]) != SortKey(cs[j])
    {
      if SortKey(cs[i]) == SortKey(cs[j]) {
        Utf16Injective(cs[i].name, cs[j].name);
      }
    }
  }

  /** A directory entry name as `readdirSync` reports it. */
  predicate ValidName(name: string) {
    name != "" && name != "." && name != ".." && '/' !in name
  }

  /** Every directory lists distinct, valid names. */
  predicate WellFormed(n: Node)
    decreases n
  {
    match n
    case Dir(cs) =>
      && UniqueKeys(cs, NameOf)
      && (forall i :: 0 <= i < |cs| ==> ValidName(cs[i].name))
      && (forall i :: 0 <= i < |cs| ==> WellFormed(cs[i].node))
    case _ => true
  }

  /** Number of nodes in the tree; the explicit-stack walk terminates because it shrinks. */
  function Size(n: Node): nat
    decreases n, 1
  {
    match n
    case Dir(cs) => 1 + SizeOf(n, cs)
    case _ => 1
  }

  function SizeOf(parent: Node, es: seq<Entry>): nat
    requires forall e :: e in es ==> e.node < parent
    decreases parent, 0, |es|
  {
    if |es| == 0 then 0
    else
      assert es[0] in es;
      assert forall e :: e in es[1..] ==> e in es;
      Size(es[0].node) + SizeOf(parent, es[1..])
  }
}
