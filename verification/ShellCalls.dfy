/** Calls of the shell and the operators that link them. */
module ShellCalls {

  datatype Link = First | And | Or | Pipe | Last

  datatype Call = Call(command: string, args: seq<string>, inputFile: string, outputFile: string, infd: nat, outfd: nat)

  /** One element of an instruction: the call, the operator before it and the operator after it. */
  datatype Item = Item(call: Call, before: Link, after: Link)

  /** How the splitter links calls: what follows one call precedes the next, and the end of a call
      list is followed by a first call. */
  predicate Linked(items: seq<Item>)
  {
    && (items != [] ==> items[0].before == First)
    && (forall i | 0 <= i < |items| :: items[i].after != First)
    && (forall i | 0 <= i < |items| - 1 ::
          items[i + 1].before == if items[i].after == Last then First else items[i].after)
  }
}
