/** The tracker, the thread argument and the result block as the objects that the tool threads
    update in place; their methods are the thread-local pieces of the protocol's events. */
module ToolTracker {
  import opened Wrappers
  import opened ToolProtocol

  class ResultBlock {
    var slot: Slot

    constructor ()
      ensures slot == Untouched
    {
      slot := Untouched;
    }
  }

  class ToolThreadArg {
    const toolUseId: string
    const resultBlock: ResultBlock
    var notified: bool

    constructor (id: string, block: ResultBlock)
      ensures toolUseId == id && resultBlock == block && !notified
    {
      toolUseId := id;
      resultBlock := block;
      notified := false;
    }
  }

  class ToolExecutionTracker {
    var total: nat
    var completed: nat
    var errorCount: nat
    var cancelled: bool

    function View(): Tracker
      reads this
    {
      Tracker(total, completed, errorCount, cancelled)
    }

    constructor (valid: nat)
      ensures View() == Tracker(valid, 0, 0, false)
    {
      total, completed, errorCount, cancelled := valid, 0, 0, false;
    }

    /** Counts the completion unless it was counted before; returns what the progress callback
        is told, if it is called at all. */
    method NotifyCompletion(arg: ToolThreadArg) returns (told: Option<(nat, bool)>)
      modifies this`completed, this`errorCount, arg`notified
      ensures arg.notified
      ensures old(arg.notified) ==> View() == old(View()) && told == None
      ensures !old(arg.notified) ==> View() == Count(old(View()), arg.resultBlock.slot.Failed())
      ensures !old(arg.notified) ==> told == Some((completed, arg.resultBlock.slot.Failed()))
    {
      told := None;
      if !arg.notified {
        arg.notified := true;
        completed := completed + 1;
        if arg.resultBlock.slot.Failed() {
          errorCount := errorCount + 1;
        }
        told := Some((completed, arg.resultBlock.slot.Failed()));
      }
    }

    /** The end of tool_thread_func: write the result, then notify. */
    method FinishTool(arg: ToolThreadArg, result: ToolResult) returns (told: Option<(nat, bool)>)
      modifies this`completed, this`errorCount, arg`notified, arg.resultBlock
      ensures arg.notified && arg.resultBlock.slot == ResultSlot(arg.toolUseId, result)
      ensures View() == if old(arg.notified) then old(View()) else Count(old(View()), result == JsonResult(true))
    {
      match result {
        case ImageResult => arg.resultBlock.slot := Image;
        case JsonResult(hasError) => arg.resultBlock.slot := Response(arg.toolUseId, Ran, hasError);
      }
      told := NotifyCompletion(arg);
    }

    /** The cancellation cleanup handler: a result that was already announced stands; any other
        becomes a cancellation error, counted once. */
    method Cleanup(arg: ToolThreadArg) returns (told: Option<(nat, bool)>)
      modifies this`completed, this`errorCount, arg`notified, arg.resultBlock
      ensures arg.notified
      ensures old(arg.notified) ==> arg.resultBlock.slot == old(arg.resultBlock.slot) && View() == old(View()) && told == None
      ensures !old(arg.notified) ==>
                && arg.resultBlock.slot == Response(arg.toolUseId, CancelledWhileRunning, true)
                && View() == Count(old(View()), true)
    {
      var shouldWriteResult := !arg.notified;
      if shouldWriteResult {
        arg.resultBlock.slot := Response(arg.toolUseId, CancelledWhileRunning, true);
      }
      told := NotifyCompletion(arg);
    }

    /** Cancellation inside the progress callback, after the tool has announced its result: the
        handler runs on a finished argument and leaves result and counters alone. */
    method FinishThenCancelled(arg: ToolThreadArg, result: ToolResult)
      requires !arg.notified
      modifies this`completed, this`errorCount, arg`notified, arg.resultBlock
      ensures arg.resultBlock.slot == ResultSlot(arg.toolUseId, result)
      ensures View() == Count(old(View()), result == JsonResult(true))
    {
      var told := FinishTool(arg, result);
      told := Cleanup(arg);
    }
  }
}
