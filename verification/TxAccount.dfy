/** The transaction account (xta), the dispatch transaction file, and the three critical
    sections of TX$ that update them, with XS$'s resume check.

    Words are sixteen bits wide, as on the target. `com` after an open commit is one more than
    whatever the registers r23:r22 hold when the executive returns (`left`): the routine means
    them to hold `com`, but nothing reloads them after the call. */
module TxAccount {
  import opened Basics

  const WORD: int := 0x1_0000

  function Inc(x: Word): Word { (x + 1) % WORD }

  /** `current` and `event` name the two ledgers of the account by their number, 0 or 1. */
  datatype Xta = Xta(current: nat, event: nat, act: Word, com: Word)

  datatype TxFile = TxFile(mark: bool, ctarget: Word, amark: Word)

  const CLEAR: TxFile := TxFile(false, 0, 0)

  function EnterXta(z: Xta): Xta { z.(act := Inc(z.act)) }

  function EnterFile(z: Xta): TxFile { TxFile(true, z.com, Inc(z.act)) }

  function CommitXta(z: Xta, left: Word): Xta {
    var act := if z.act == 0 then 0 else z.act - 1;
    Xta(z.event, z.current, act, if act == 0 then 0 else Inc(left))
  }

  function RollbackXta(z: Xta, y: TxFile): Xta { z.(act := y.amark) }

  predicate CheckPasses(z: Xta, y: TxFile) { z.com == y.ctarget && z.act == y.amark }

  class Account {
    var current: nat
    var event: nat
    var act: Word
    var com: Word

    function Value(): Xta
      reads this
    {
      Xta(current, event, act, com)
    }

    constructor (current: nat, event: nat)
      ensures Value() == Xta(current, event, 0, 0)
    {
      this.current, this.event, act, com := current, event, 0, 0;
    }
  }

  class TransactFile {
    var mark: bool
    var ctarget: Word
    var amark: Word

    function Value(): TxFile
      reads this
    {
      TxFile(mark, ctarget, amark)
    }

    constructor ()
      ensures Value() == CLEAR
    {
      mark, ctarget, amark := false, 0, 0;
    }
  }

  /** The entry section of opsec_tx_event, up to the call of the executive. */
  method TxEnter(y: TransactFile, z: Account)
    modifies y, z
    ensures z.Value() == EnterXta(old(z.Value()))
    ensures y.Value() == EnterFile(old(z.Value()))
  {
    z.act := if z.act == WORD - 1 then 0 else z.act + 1;
    y.amark := z.act;
    var com := z.com;
    y.mark := true;
    y.ctarget := com;
  }

  /** The commit section of opsec_tx_event, after the executive has returned. */
  method TxCommit(y: TransactFile, z: Account, left: Word)
    modifies y, z
    ensures z.Value() == CommitXta(old(z.Value()), left)
    ensures y.Value() == old(y.Value()).(mark := false)
  {
    if z.act != 0 {
      z.act := z.act - 1;
    }
    if z.act == 0 {
      z.com := 0;
    } else {
      z.com := if left == WORD - 1 then 0 else left + 1;
    }
    z.current, z.event := z.event, z.current;
    y.mark := false;
  }

  /** opsec_tx_rollback, up to the restart of the executive. */
  method TxRollback(y: TransactFile, z: Account)
    modifies y, z
    ensures z.Value() == RollbackXta(old(z.Value()), old(y.Value()))
    ensures y.Value() == old(y.Value()).(ctarget := old(z.com))
  {
    z.act := y.amark;
    y.ctarget := z.com;
  }

  /** The comparison made by checktx when XS$ resumes a marked dispatch. */
  method CheckTx(y: TransactFile, z: Account) returns (good: bool)
    ensures good <==> CheckPasses(z.Value(), y.Value())
  {
    good := z.com == y.ctarget && z.act == y.amark;
  }
}
