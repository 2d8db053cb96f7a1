/**
 * The command hook that hands the ambient dealership id to PostgreSQL.
 *
 * Before any reader, scalar or non-query command runs, the text of the command
 * gets a `DO $$ ... set_tenant('<id>') ... $$;` statement in front of it when
 * the scope holds an id, and is left exactly as it was when it does not.
 */
module TenancyCommandInterceptor {
  import opened Wrappers
  import opened Guids
  import opened Tenancy
  import opened EfCore

  const DoBlockStart: string := "DO $$ BEGIN PERFORM set_tenant('"
  const DoBlockEnd: string := "'); END $$;\n"

  /** The statement put in front of a command run on behalf of dealership id. */
  function SetTenantStatement(id: Guid): (s: string)
    ensures |s| == |DoBlockStart| + 36 + |DoBlockEnd|
  {
    DoBlockStart + Format(id) + DoBlockEnd
  }

  /**
   * The text a command is sent with, given the id the scope holds. The original
   * text always survives as a suffix; what comes before it depends only on the id.
   */
  function Rewrite(commandText: string, dealershipId: Option<Guid>): (r: string)
    ensures |commandText| <= |r| && r[|r| - |commandText|..] == commandText
    ensures r == commandText <==> dealershipId.None?
    ensures dealershipId.Some? ==> r[..|r| - |commandText|] == SetTenantStatement(dealershipId.value)
  {
    match dealershipId
    case None => commandText
    case Some(id) => SetTenantStatement(id) + commandText
  }

  /** The id can be read back from the statement: distinct ids give distinct statements. */
  lemma SetTenantStatementInjective(a: Guid, b: Guid)
    requires SetTenantStatement(a) == SetTenantStatement(b)
    ensures a == b
  {
    var n := |DoBlockStart|;
    assert Format(a) == SetTenantStatement(a)[n..n + 36];
    assert Format(b) == SetTenantStatement(b)[n..n + 36];
    FormatInjective(a, b);
  }

  /** A rewritten command determines both the tenant and the original text. */
  lemma RewriteInjective(text1: string, text2: string, a: Guid, b: Guid)
    requires Rewrite(text1, Some(a)) == Rewrite(text2, Some(b))
    ensures a == b && text1 == text2
  {
    var r := Rewrite(text1, Some(a));
    var n := |SetTenantStatement(a)|;
    assert SetTenantStatement(a) == r[..n] == SetTenantStatement(b);
    SetTenantStatementInjective(a, b);
    assert text1 == r[n..] == text2;
  }

  /** The rewrite is not idempotent: a second pass adds a second statement. */
  lemma RewriteTwiceStacksStatements(text: string, id: Guid)
    ensures Rewrite(Rewrite(text, Some(id)), Some(id)) == SetTenantStatement(id) + SetTenantStatement(id) + text
    ensures Rewrite(Rewrite(text, Some(id)), Some(id)) != Rewrite(text, Some(id))
  {
    var once := Rewrite(text, Some(id));
    var twice := Rewrite(once, Some(id));
    assert |twice| == |once| + |SetTenantStatement(id)| > |once|;
  }

  /** The part of DbCommand the hook touches. */
  class DbCommand {
    var commandText: string

    constructor (commandText: string)
      ensures this.commandText == commandText
    {
      this.commandText := commandText;
    }
  }

  /** Rewrites the command's text in place from the scope's CurrentOrDefault. */
  method SetTenantContext(command: DbCommand, scope: TenancyScope)
    modifies command
    ensures command.commandText == Rewrite(old(command.commandText), scope.CurrentOrDefault())
  {
    var dealershipId := scope.CurrentOrDefault();
    if dealershipId.Some? {
      command.commandText := SetTenantStatement(dealershipId.value) + command.commandText;
    }
  }

  /** ReaderExecuting: one rewrite, then the base hook, which returns result as it came. */
  method ReaderExecuting<Reader>(command: DbCommand, scope: TenancyScope, result: InterceptionResult<Reader>)
    returns (r: InterceptionResult<Reader>)
    modifies command
    ensures r == result
    ensures command.commandText == Rewrite(old(command.commandText), scope.CurrentOrDefault())
  {
    SetTenantContext(command, scope);
    r := result;
  }

  /** ReaderExecutingAsync: as ReaderExecuting; the completed ValueTask holds result. */
  method ReaderExecutingAsync<Reader>(command: DbCommand, scope: TenancyScope, result: InterceptionResult<Reader>)
    returns (r: InterceptionResult<Reader>)
    modifies command
    ensures r == result
    ensures command.commandText == Rewrite(old(command.commandText), scope.CurrentOrDefault())
  {
    SetTenantContext(command, scope);
    r := result;
  }

  /** ScalarExecuting: one rewrite, then result unchanged. */
  method ScalarExecuting<Scalar>(command: DbCommand, scope: TenancyScope, result: InterceptionResult<Scalar>)
    returns (r: InterceptionResult<Scalar>)
    modifies command
    ensures r == result
    ensures command.commandText == Rewrite(old(command.commandText), scope.CurrentOrDefault())
  {
    SetTenantContext(command, scope);
    r := result;
  }

  /** ScalarExecutingAsync: as ScalarExecuting. */
  method ScalarExecutingAsync<Scalar>(command: DbCommand, scope: TenancyScope, result: InterceptionResult<Scalar>)
    returns (r: InterceptionResult<Scalar>)
    modifies command
    ensures r == result
    ensures command.commandText == Rewrite(old(command.commandText), scope.CurrentOrDefault())
  {
    SetTenantContext(command, scope);
    r := result;
  }

  /** NonQueryExecuting: one rewrite, then the row-count result unchanged. */
  method NonQueryExecuting(command: DbCommand, scope: TenancyScope, result: InterceptionResult<int>)
    returns (r: InterceptionResult<int>)
    modifies command
    ensures r == result
    ensures command.commandText == Rewrite(old(command.commandText), scope.CurrentOrDefault())
  {
    SetTenantContext(command, scope);
    r := result;
  }

  /** NonQueryExecutingAsync: as NonQueryExecuting. */
  method NonQueryExecutingAsync(command: DbCommand, scope: TenancyScope, result: InterceptionResult<int>)
    returns (r: InterceptionResult<int>)
    modifies command
    ensures r == result
    ensures command.commandText == Rewrite(old(command.commandText), scope.CurrentOrDefault())
  {
    SetTenantContext(command, scope);
    r := result;
  }

  /**
   * A command issued inside a tenant scope goes out as exactly one set_tenant
   * statement followed by its own text; outside any scope it goes out untouched,
   * and Current is never consulted, so an empty scope raises nothing.
   */
  method CommandInScopeAndOutside(scope: TenancyScope, id: Guid, text: string) returns (inside: string, outside: string)
    modifies scope
    ensures inside == SetTenantStatement(id) + text
    ensures outside == text
  {
    var handle := scope.Begin(id);
    var command := new DbCommand(text);
    var noResult: InterceptionResult<int> := InterceptionResult(false, None);
    var _ := ReaderExecuting(command, scope, noResult);
    inside := command.commandText;
    handle.Dispose();
    command := new DbCommand(text);
    var _ := NonQueryExecuting(command, scope, noResult);
    outside := command.commandText;
  }

  /** Two hook calls on the same command stack two statements in front of its text. */
  method TwoHooksTwoStatements(scope: TenancyScope, id: Guid, text: string) returns (sent: string)
    modifies scope
    ensures sent == SetTenantStatement(id) + SetTenantStatement(id) + text
  {
    scope.SetDealershipId(id);
    var command := new DbCommand(text);
    var noResult: InterceptionResult<int> := InterceptionResult(false, None);
    var _ := ScalarExecuting(command, scope, noResult);
    var _ := ScalarExecutingAsync(command, scope, noResult);
    sent := command.commandText;
    RewriteTwiceStacksStatements(text, id);
  }
}
