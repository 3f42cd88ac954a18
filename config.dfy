/** The application's settings record and its default value. */
module Config {
  import opened FileSystem

  /** Rust's `u32`. */
  newtype u32 = x: int | 0 <= x < 0x1_0000_0000

  /** Rust's `u16`. */
  newtype u16 = x: int | 0 <= x < 0x1_0000

  datatype CameraConfig = CameraConfig(
    postureCameraId: string,
    boardCameraId: string,
    videoResolution: string,
    videoFramerate: u32)

  datatype DataConfig = DataConfig(
    databasePath: Path,
    videoStoragePath: Path,
    autoDeleteDays: u32)

  datatype NetworkConfig = NetworkConfig(rpcPort: u16)

  /** The whole settings record, stored as `config.toml`. */
  datatype Config = Config(camera: CameraConfig, data: DataConfig, network: NetworkConfig)

  /**
   * The default settings: no cameras chosen, 1280x720 video at 30 frames per second, recordings
   * kept for 90 days, the RPC server on port 8080, and both data paths empty until they are
   * resolved against the application's data directory.
   */
  function Default(): Config
  {
    Config(
      CameraConfig("", "", "1280x720", 30),
      DataConfig("", "", 90),
      NetworkConfig(8080))
  }
}
