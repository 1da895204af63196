/**
  `lib/config.ts`: the GitHub settings taken from the environment, and the switch that
  turns the GitHub source on. The environment is a parameter.
 */
module LibConfig {
  import opened Wrappers
  import opened JsText

  /** `GITHUB_TOKEN`, `GITHUB_REPO_OWNER`, `GITHUB_REPO_NAME` and `GITHUB_REPO_FOLDER`,
      each possibly unset. */
  datatype Env = Env(
    token: Option<String>,
    owner: Option<String>,
    repo: Option<String>,
    folder: Option<String>)

  /** `GITHUB_CONFIG`. */
  datatype GitHubConfig = GitHubConfig(
    token: Option<String>,
    owner: Option<String>,
    repo: Option<String>,
    folder: String)

  const DefaultFolder: String := "content"

  /** The configuration read from the environment: the three credentials as they are,
      the folder `content` unless a non-empty one is given. */
  function ConfigOf(env: Env): (c: GitHubConfig)
    ensures c.token == env.token && c.owner == env.owner && c.repo == env.repo
    ensures Truthy(env.folder) ==> c.folder == env.folder.value
    ensures !Truthy(env.folder) ==> c.folder == DefaultFolder
    ensures |c.folder| > 0
  {
    GitHubConfig(env.token, env.owner, env.repo, OrElse(env.folder, DefaultFolder))
  }

  /** `isGitHubEnabled`: token, owner and repo are all set to non-empty strings. */
  predicate IsGitHubEnabled(c: GitHubConfig) {
    Truthy(c.token) && Truthy(c.owner) && Truthy(c.repo)
  }

  /** Enabled exactly when each of the three credentials is present and not the empty
      string; an empty value counts as unset. */
  lemma EnabledIff(env: Env)
    ensures IsGitHubEnabled(ConfigOf(env)) <==>
              && env.token.Some? && |env.token.value| > 0
              && env.owner.Some? && |env.owner.value| > 0
              && env.repo.Some? && |env.repo.value| > 0
  {
  }

  /** Setting a credential to the empty string has the same effect as leaving it unset. */
  lemma EmptyIsUnset(env: Env)
    ensures IsGitHubEnabled(ConfigOf(env.(token := Some([])))) == IsGitHubEnabled(ConfigOf(env.(token := None)))
    ensures IsGitHubEnabled(ConfigOf(env.(owner := Some([])))) == IsGitHubEnabled(ConfigOf(env.(owner := None)))
    ensures IsGitHubEnabled(ConfigOf(env.(repo := Some([])))) == IsGitHubEnabled(ConfigOf(env.(repo := None)))
  {
  }

  /** The folder plays no part in the switch. */
  lemma FolderIrrelevant(env: Env, folder: Option<String>)
    ensures IsGitHubEnabled(ConfigOf(env)) == IsGitHubEnabled(ConfigOf(env.(folder := folder)))
  {
  }
}
