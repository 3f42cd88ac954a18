/** The state the running application shares between its commands. */
module State {
  import opened FileSystem
  import opened Config

  /**
   * The settings currently in force and the file they are saved to. The settings change when the
   * user updates them; the file's path is fixed when the state is built.
   */
  class AppState {
    var config: Config
    const configPath: Path

    constructor(config: Config, configPath: Path)
      ensures this.config == config && this.configPath == configPath
    {
      this.config := config;
      this.configPath := configPath;
    }
  }
}
