/** The fixed configuration both core files hard-code at module level. */
module Settings {

  /** The bot's own account: commits it authors are never re-optimised. */
  const BotUsername: string := "RajBhattacharyya"

  /** The monitored workflow file, relative to the repository root. */
  const WorkflowPath: string := ".github/workflows/deploy.yml"

  /** The path segment that also marks a file as a workflow definition. */
  const WorkflowDir: string := "github/workflows"

  /** The marker the loop-prevention check looks for in commit messages. */
  const BotMarker: string := "Optimized GitHub Actions for Carbon Efficiency"

  /** The message of the commit the orchestrator writes. */
  const CommitMessage: string := "Optimized GitHub Actions for Carbon Efficiency"

  /** The message passed when the orchestrator merges its pull request. */
  const MergeMessage: string := "Merging AI-optimized workflow"

  /** The reserved branch the orchestrator recreates on every run, and its base. */
  const BranchName: string := "optimize-workflow"
  const MainBranch: string := "main"

  /** The title of the pull request the orchestrator opens. */
  const PrTitle: string := "Optimize Workflow for Carbon Efficiency"

  /** Polling defaults of the mergeability check. */
  const MaxAttempts: int := 12
  const WaitSeconds: nat := 5
}
